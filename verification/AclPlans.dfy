/** What an accepted plan holds, entry by entry, in terms of the command line alone. */
module AclPlans {
  import opened Wrappers
  import opened Text
  import opened Acls
  import opened AclRoles

  /** One of the values, trimmed. */
  ghost predicate Names(values: seq<string>, name: string) {
    exists i :: 0 <= i < |values| && Trim(values[i]) == name
  }

  /** A host that the flag gives, or every host when it gives none. */
  ghost predicate FromHost(given: seq<string>, host: string) {
    if given == [] then host == "*" else Names(given, host)
  }

  /** A resource that one of the names selects. */
  ghost predicate Selects(names: seq<string>, trim: bool, kind: ResourceType, pattern: PatternType, r: Resource) {
    && r.kind == kind && r.pattern == pattern
    && if trim then Names(names, r.name) else r.name in names
  }

  // ----- Entries

  lemma PrincipalsAre(values: seq<string>, p: string)
    requires Principals(values).Ok?
    ensures p in Principals(values).value <==> Names(values, p)
  {
  }

  lemma HostsAre(values: seq<string>, h: string)
    ensures h in Elements(Hosts(values, true)) <==> FromHost(values, h)
  {
    var hosts := Hosts(values, true);
    if values != [] {
      assert forall i :: 0 <= i < |values| ==> hosts[i] == Trim(values[i]);
      if h in hosts {
        var i :| 0 <= i < |hosts| && hosts[i] == h;
        assert Trim(values[i]) == h;
      }
      if Names(values, h) {
        var i :| 0 <= i < |values| && Trim(values[i]) == h;
        assert hosts[i] == h;
      }
    }
  }

  /** The entries for some operations: each with a principal, a host and a permission that the flags give. */
  ghost predicate Granted(who: Parties, operations: set<Operation>, e: Entry) {
    && e.operation in operations
    && match e.permission
       case Allow => Names(who.allowPrincipal, e.principal) && FromHost(who.allowHost, e.host)
       case Deny => Names(who.denyPrincipal, e.principal) && FromHost(who.denyHost, e.host)
  }

  lemma ProductIs(principals: set<string>, operations: set<Operation>, hosts: set<string>, permission: Permission,
                  e: Entry)
    ensures e in Product(principals, operations, hosts, permission)
            <==> e.principal in principals && e.operation in operations && e.host in hosts && e.permission == permission
  {
    if e.principal in principals && e.operation in operations && e.host in hosts && e.permission == permission {
      assert e == Entry(e.principal, e.host, e.operation, permission);
    }
  }

  lemma HalfIs(principals: seq<string>, hosts: seq<string>, operations: set<Operation>, permission: Permission,
               e: Entry)
    requires Principals(principals).Ok?
    ensures e in Product(Principals(principals).value, operations, Elements(Hosts(hosts, principals != [])), permission)
            <==> && Names(principals, e.principal) && FromHost(hosts, e.host)
                 && e.operation in operations && e.permission == permission
  {
    ProductIs(Principals(principals).value, operations, Elements(Hosts(hosts, principals != [])), permission, e);
    PrincipalsAre(principals, e.principal);
    HostsAre(hosts, e.host);
  }

  lemma EntriesAre(who: Parties, operations: set<Operation>, e: Entry)
    requires EntriesOf(who, operations).Ok?
    ensures e in EntriesOf(who, operations).value <==> Granted(who, operations, e)
  {
    HalfIs(who.allowPrincipal, who.allowHost, operations, Allow, e);
    HalfIs(who.denyPrincipal, who.denyHost, operations, Deny, e);
  }

  // ----- Resources

  lemma NamedAre(kind: ResourceType, names: seq<string>, trim: bool, pattern: PatternType, r: Resource)
    ensures r in Named(kind, names, trim, pattern) <==> Selects(names, trim, kind, pattern, r)
  {
    if Selects(names, trim, kind, pattern, r) {
      if trim {
        var i :| 0 <= i < |names| && Trim(names[i]) == r.name;
        assert r == Resource(kind, Trim(names[i]), pattern);
      } else {
        var i :| 0 <= i < |names| && names[i] == r.name;
        assert r == Resource(kind, names[i], pattern);
      }
    }
  }

  /** The resource of the whole cluster. */
  predicate IsCluster(r: Resource) {
    r.kind == Cluster && r.name == "kafka-cluster" && r.pattern == Literal
  }

  /** The resources that the flags select. */
  ghost predicate Selected(s: Selectors, idempotent: bool, pattern: PatternType, r: Resource) {
    match r.kind
    case Topic => Selects(s.topic, true, Topic, pattern, r)
    case Group => Selects(s.group, true, Group, pattern, r)
    case Cluster => IsCluster(r) && pattern == Literal && (s.cluster || idempotent)
    case TransactionalId => Selects(s.transactionalId, false, TransactionalId, pattern, r)
    case DelegationToken => Selects(s.delegationToken, true, DelegationToken, pattern, r)
    case UserResource => Selects(s.userPrincipal, true, UserResource, pattern, r)
  }

  lemma FiltersAre(s: Selectors, idempotent: bool, pattern: PatternType, r: Resource)
    ensures r in FiltersOf(s, idempotent, pattern) <==> Selected(s, idempotent, pattern, r)
  {
    NamedAre(Topic, s.topic, true, pattern, r);
    NamedAre(Group, s.group, true, pattern, r);
    NamedAre(TransactionalId, s.transactionalId, false, pattern, r);
    NamedAre(DelegationToken, s.delegationToken, true, pattern, r);
    NamedAre(UserResource, s.userPrincipal, true, pattern, r);
  }

  // ----- Role plans

  /** The operations that the roles give on a kind of resource. */
  function RoleOperations(producer: bool, consumer: bool, kind: ResourceType): set<Operation> {
    match kind
    case Topic => (if producer then {Write, Describe, Create} else {}) + (if consumer then {Read, Describe} else {})
    case Group => if consumer then {Read} else {}
    case TransactionalId => if producer then {Write, Describe} else {}
    case Cluster => if producer then {IdempotentWrite} else {}
    case _ => {}
  }

  /** The resources that the roles give entries on. */
  ghost predicate RoleResource(args: Args, pattern: PatternType, r: Resource) {
    match r.kind
    case Topic => Selects(args.selectors.topic, true, Topic, pattern, r)
    case Group => args.roles.consumer && Selects(args.selectors.group, true, Group, pattern, r)
    case TransactionalId =>
      args.roles.producer && Selects(args.selectors.transactionalId, false, TransactionalId, pattern, r)
    case Cluster => args.roles.producer && args.roles.idempotent && IsCluster(r)
    case _ => false
  }

  lemma ProducerIs(who: Parties, s: Selectors, idempotent: bool, pattern: PatternType, r: Resource, e: Entry)
    requires ProducerAcls(who, FiltersOf(s, idempotent, pattern), idempotent).Ok?
    ensures var acls := ProducerAcls(who, FiltersOf(s, idempotent, pattern), idempotent).value;
            && (r in acls <==> || (r.kind in {Topic, TransactionalId} && Selected(s, idempotent, pattern, r))
                               || (idempotent && IsCluster(r)))
            && (e in Get(acls, r) <==> r in acls && Granted(who, RoleOperations(true, false, r.kind), e))
  {
    FiltersAre(s, idempotent, pattern, r);
    assert IsCluster(r) <==> r == CLUSTER;
    EntriesAre(who, {Write, Describe, Create}, e);
    EntriesAre(who, {Write, Describe}, e);
    if idempotent {
      EntriesAre(who, {IdempotentWrite}, e);
    }
  }

  lemma ConsumerIs(who: Parties, s: Selectors, idempotent: bool, pattern: PatternType, r: Resource, e: Entry)
    requires ConsumerAcls(who, FiltersOf(s, idempotent, pattern)).Ok?
    ensures var acls := ConsumerAcls(who, FiltersOf(s, idempotent, pattern)).value;
            && (r in acls <==> r.kind in {Topic, Group} && Selected(s, idempotent, pattern, r))
            && (e in Get(acls, r) <==> r in acls && Granted(who, RoleOperations(false, true, r.kind), e))
  {
    FiltersAre(s, idempotent, pattern, r);
    EntriesAre(who, {Read, Describe}, e);
    EntriesAre(who, {Read}, e);
  }

  function AclsOf(plan: Plan): AclMap
    requires !plan.List?
  {
    plan.acls
  }

  lemma GrantedUnion(who: Parties, a: set<Operation>, b: set<Operation>, e: Entry)
    ensures Granted(who, a + b, e) <==> Granted(who, a, e) || Granted(who, b, e)
  {
  }

  /** The map of a role, before its check. */
  lemma RoleMap(args: Args, pattern: PatternType, r: Resource, e: Entry)
    requires (args.roles.producer || args.roles.consumer) && (args.roles.idempotent ==> args.roles.producer)
    requires Expansion(args, pattern).Ok?
    ensures var acls := Expansion(args, pattern).value;
            && (r in acls <==> RoleResource(args, pattern, r))
            && (r in acls ==>
                  (e in acls[r] <==>
                     Granted(args.parties, RoleOperations(args.roles.producer, args.roles.consumer, r.kind), e)))
  {
    var who, s, roles := args.parties, args.selectors, args.roles;
    var acls := Expansion(args, pattern).value;
    if roles.producer {
      ProducerIs(who, s, roles.idempotent, pattern, r, e);
    }
    if roles.consumer {
      ConsumerIs(who, s, roles.idempotent, pattern, r, e);
    }
    GrantedUnion(who, RoleOperations(roles.producer, false, r.kind), RoleOperations(false, roles.consumer, r.kind), e);
    assert RoleOperations(roles.producer, roles.consumer, r.kind)
        == RoleOperations(roles.producer, false, r.kind) + RoleOperations(false, roles.consumer, r.kind);
  }

  /**
    An accepted add or remove for roles: exactly these resources, and on each exactly the allowed
    principals from the allowed hosts with the operations of the roles.
   */
  lemma {:induction false} RolePlanHolds(args: Args, r: Resource, e: Entry)
    requires (args.roles.producer || args.roles.consumer) && PlanOf(args).Ok?
    ensures !PlanOf(args).value.List? && ParsePattern(args.pattern).Ok?
    ensures var acls := AclsOf(PlanOf(args).value);
            && (r in acls <==> RoleResource(args, ParsePattern(args.pattern).value, r))
            && (r in acls ==>
                  (e in acls[r] <==>
                     && e.permission == Allow
                     && Names(args.parties.allowPrincipal, e.principal) && FromHost(args.parties.allowHost, e.host)
                     && e.operation in RoleOperations(args.roles.producer, args.roles.consumer, r.kind)))
  {
    RoleMap(args, ParsePattern(args.pattern).value, r, e);
  }

  // ----- Explicit plans

  /**
    An accepted add or remove without roles: exactly the selected resources, and on each the same entries,
    allowed and denied, for the operations named, or for all.
   */
  lemma {:induction false} ExplicitPlanHolds(args: Args, r: Resource, e: Entry)
    requires !args.roles.producer && !args.roles.consumer && PlanOf(args).Ok? && !args.action.list
    ensures !PlanOf(args).value.List? && ParsePattern(args.pattern).Ok?
    ensures var acls := AclsOf(PlanOf(args).value);
            && (r in acls <==> Selected(args.selectors, false, ParsePattern(args.pattern).value, r))
            && (r in acls ==> (e in acls[r] <==> Granted(args.parties, Elements(OperationsOf(args)), e)))
    ensures e.operation in OperationsOf(args)
            <==> if args.operation == [] then e.operation == All
                 else exists i :: 0 <= i < |args.operation| && ParseOperation(Trim(args.operation[i])) == e.operation
  {
    FiltersAre(args.selectors, args.roles.idempotent, ParsePattern(args.pattern).value, r);
    ExplicitMap(args.parties, Elements(OperationsOf(args)),
                FiltersOf(args.selectors, args.roles.idempotent, ParsePattern(args.pattern).value), r, e);
    NamedOperations(args, e.operation);
  }

  lemma ExplicitMap(who: Parties, operations: set<Operation>, filters: set<Resource>, r: Resource, e: Entry)
    ensures var acls := ExplicitAcls(who, operations, filters);
            acls.Ok? ==> && (r in acls.value <==> r in filters)
                         && (r in filters ==> (e in acls.value[r] <==> Granted(who, operations, e)))
  {
    if EntriesOf(who, operations).Ok? {
      EntriesAre(who, operations, e);
    }
  }

  lemma NamedOperations(args: Args, o: Operation)
    ensures o in OperationsOf(args)
            <==> if args.operation == [] then o == All
                 else exists i :: 0 <= i < |args.operation| && ParseOperation(Trim(args.operation[i])) == o
  {
    var operations := OperationsOf(args);
    if args.operation != [] {
      assert forall i :: 0 <= i < |operations| ==> operations[i] == ParseOperation(Trim(args.operation[i]));
      if o in operations {
        var i :| 0 <= i < |operations| && operations[i] == o;
      }
      if exists i :: 0 <= i < |args.operation| && ParseOperation(Trim(args.operation[i])) == o {
        var i :| 0 <= i < |args.operation| && ParseOperation(Trim(args.operation[i])) == o;
        assert operations[i] == o;
      }
    }
  }

  // ----- Which other plans are accepted

  /** A remove for a role needs only compatible flags, a pattern type and well-formed principals. */
  lemma {:induction false} RoleRemoveAccepted(args: Args)
    requires args.action.remove && (args.roles.producer || args.roles.consumer)
    ensures PlanOf(args).Ok? <==>
              CheckFlags(args).Ok? && ParsePattern(args.pattern).Ok? && HaveColons(args.parties.allowPrincipal)
  {
    if CheckFlags(args).Ok? && ParsePattern(args.pattern).Ok? {
      var pattern := ParsePattern(args.pattern).value;
      var topic := Resource(Topic, Trim(args.selectors.topic[0]), pattern);
      assert topic in FiltersOf(args.selectors, args.roles.idempotent, pattern) by {
        assert topic in Named(Topic, args.selectors.topic, true, pattern);
      }
      RoleExpansion(args, pattern, topic);
    }
  }

  /** An explicit remove may name no principal, for every entry, and then any operation. */
  lemma {:induction false} ExplicitRemoveAccepted(args: Args)
    requires args.action.remove && !args.roles.producer && !args.roles.consumer
    ensures PlanOf(args).Ok? <==>
              && CheckFlags(args).Ok? && ParsePattern(args.pattern).Ok?
              && HaveColons(args.parties.allowPrincipal) && HaveColons(args.parties.denyPrincipal)
              && var filters := FiltersOf(args.selectors, args.roles.idempotent, ParsePattern(args.pattern).value);
                 && filters != {}
                 && ((args.parties.allowPrincipal == [] && args.parties.denyPrincipal == [])
                     || AllSupport(filters, Elements(OperationsOf(args))))
  {
    if CheckFlags(args).Ok? && ParsePattern(args.pattern).Ok? {
      var operations := Elements(OperationsOf(args));
      var filters := FiltersOf(args.selectors, args.roles.idempotent, ParsePattern(args.pattern).value);
      ExplicitRemoves(args.parties, operations, OperationsOf(args)[0], filters);
    }
  }

  lemma ExplicitRemoves(who: Parties, operations: set<Operation>, o: Operation, filters: set<Resource>)
    requires o in operations
    ensures var r := ExplicitAcls(who, operations, filters);
            (r.Ok? && Valid(r.value))
            <==> && HaveColons(who.allowPrincipal) && HaveColons(who.denyPrincipal) && filters != {}
                 && ((who.allowPrincipal == [] && who.denyPrincipal == []) || AllSupport(filters, operations))
  {
    var r := ExplicitAcls(who, operations, filters);
    if who.allowPrincipal == [] && who.denyPrincipal == [] {
      assert Principals(who.allowPrincipal).Ok? && Principals(who.allowPrincipal).value == {};
      assert Principals(who.denyPrincipal).Ok? && Principals(who.denyPrincipal).value == {};
      if filters != {} {
        EntriesExist(who, operations);
      }
    } else {
      ExplicitExpansion(who, operations, o, filters);
      if r.Ok? {
        EntriesExist(who, operations);
        var e :| e in EntriesOf(who, operations).value && e.operation == o;
      }
    }
  }

  /** A list shows the selected resources, and takes principals with a colon. */
  lemma {:induction false} ListAccepted(args: Args, r: Resource)
    requires args.action.list && CheckFlags(args).Ok?
    ensures PlanOf(args).Ok? <==>
              ParsePattern(args.pattern).Ok? && (args.principal.Some? ==> HaveColons(args.principal.value))
    ensures PlanOf(args).Ok? ==>
              && PlanOf(args).value.List?
              && (r in PlanOf(args).value.filters
                  <==> Selected(args.selectors, args.roles.idempotent, ParsePattern(args.pattern).value, r))
  {
    if ParsePattern(args.pattern).Ok? {
      FiltersAre(args.selectors, args.roles.idempotent, ParsePattern(args.pattern).value, r);
    }
  }
}
