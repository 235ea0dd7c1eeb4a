/** The ACL changes that a command line asks for. */
module Acls {
  import opened Wrappers
  import opened Text

  datatype Error =
    | NoBootstrap
    | NotOneAction
    | InvalidWith
    | PrincipalNeedsList
    | ProducerNeedsTopic
    | IdempotentNeedsProducer
    | ConsumerNeeds
    | DryRunWithList
    | BadPattern
    | BadPrincipal
    | OperationAny
    | NoResource
    | UnsupportedOperation
    | PatternNotSpecific
    | NoPrincipal
    | NotConcrete

  datatype ResourceType = Topic | Group | Cluster | TransactionalId | DelegationToken | UserResource

  datatype PatternType = AnyPattern | MatchPattern | Literal | Prefixed

  datatype Operation =
    | Unknown | AnyOperation | All | Read | Write | Create | Delete | Alter | Describe | ClusterAction
    | DescribeConfigs | AlterConfigs | IdempotentWrite | CreateTokens | DescribeTokens | TwoPhaseCommit

  datatype Permission = Allow | Deny

  datatype Resource = Resource(kind: ResourceType, name: string, pattern: PatternType)

  datatype Entry = Entry(principal: string, host: string, operation: Operation, permission: Permission)

  type AclMap = map<Resource, set<Entry>>

  datatype Plan = List(filters: set<Resource>) | Add(acls: AclMap) | Remove(acls: AclMap)

  const CLUSTER: Resource := Resource(Cluster, "kafka-cluster", Literal)

  /** Who the entries are for. */
  datatype Parties = Parties(allowPrincipal: seq<string>, allowHost: seq<string>,
                             denyPrincipal: seq<string>, denyHost: seq<string>)

  /** The resources that the flags name. */
  datatype Selectors = Selectors(topic: seq<string>, cluster: bool, group: seq<string>, transactionalId: seq<string>,
                                 delegationToken: seq<string>, userPrincipal: seq<string>)

  datatype Action = Action(add: bool, remove: bool, list: bool)

  datatype Roles = Roles(producer: bool, consumer: bool, idempotent: bool)

  /** The parsed command line. */
  datatype Args = Args(bootstrap: bool, action: Action, selectors: Selectors, pattern: string, operation: seq<string>,
                       parties: Parties, principal: Option<seq<string>>, roles: Roles, dryRun: bool)

  // ----- Words

  /** The Pascal-case name in any case; anything else is `Unknown`. */
  function ParseOperation(s: string): Operation {
    var name := Lower(s);
    if name == "any" then AnyOperation else if name == "all" then All else if name == "read" then Read
    else if name == "write" then Write else if name == "create" then Create else if name == "delete" then Delete
    else if name == "alter" then Alter else if name == "describe" then Describe
    else if name == "clusteraction" then ClusterAction else if name == "describeconfigs" then DescribeConfigs
    else if name == "alterconfigs" then AlterConfigs else if name == "idempotentwrite" then IdempotentWrite
    else if name == "createtokens" then CreateTokens else if name == "describetokens" then DescribeTokens
    else if name == "twophasecommit" then TwoPhaseCommit else Unknown
  }

  function ParsePattern(s: string): Result<PatternType, Error> {
    var name := Lower(s);
    if name == "any" then Ok(AnyPattern) else if name == "match" then Ok(MatchPattern)
    else if name == "literal" then Ok(Literal) else if name == "prefixed" then Ok(Prefixed) else Err(BadPattern)
  }

  /** The operations besides `All` that an entry on a resource type can name. */
  function Supported(kind: ResourceType): set<Operation> {
    match kind
    case Topic => {Read, Write, Create, Describe, Delete, Alter, DescribeConfigs, AlterConfigs}
    case Group => {Read, Describe, Delete, DescribeConfigs, AlterConfigs}
    case Cluster => {Create, ClusterAction, DescribeConfigs, AlterConfigs, IdempotentWrite, Alter, Describe}
    case TransactionalId => {Describe, Write, TwoPhaseCommit}
    case DelegationToken => {Describe}
    case UserResource => {CreateTokens, DescribeTokens}
  }

  // ----- Entries

  function Elements<T>(s: seq<T>): set<T> {
    set x | x in s
  }

  /** The distinct trimmed principals, each with a colon. */
  function Principals(values: seq<string>): Result<set<string>, Error> {
    if exists i :: 0 <= i < |values| && ':' !in Trim(values[i]) then Err(BadPrincipal)
    else Ok(set i | 0 <= i < |values| :: Trim(values[i]))
  }

  /** The elements of `s`, each where it is first seen. */
  function FirstSeen(s: seq<string>): (d: seq<string>)
    ensures Elements(d) == Elements(s)
    ensures forall i, j :: 0 <= i < j < |d| ==> d[i] != d[j]
  {
    if s == [] then []
    else
      var earlier, last := FirstSeen(s[..|s| - 1]), s[|s| - 1];
      assert s == s[..|s| - 1] + [last];
      assert last in earlier <==> last in Elements(earlier);
      assert Elements(earlier + [last]) == Elements(earlier) + {last};
      if last in earlier then earlier else earlier + [last]
  }

  function Trimmed(values: seq<string>): (t: seq<string>)
    ensures |t| == |values|
  {
    seq(|values|, i requires 0 <= i < |values| => Trim(values[i]))
  }

  /** `principals`: trimmed, each once and in the order first seen. */
  method ReadPrincipals(values: seq<string>) returns (r: Result<seq<string>, Error>)
    ensures r.Ok? ==> r.value == FirstSeen(Trimmed(values))
    ensures r.Ok? <==> Principals(values).Ok?
    ensures r.Err? ==> r.error == BadPrincipal
    ensures r.Ok? ==> Elements(r.value) == Principals(values).value
    ensures r.Ok? ==> forall i, j :: 0 <= i < j < |r.value| ==> r.value[i] != r.value[j]
  {
    var out: seq<string> := [];
    for i := 0 to |values|
      invariant forall k :: 0 <= k < i ==> ':' in Trim(values[k])
      invariant out == FirstSeen(Trimmed(values)[..i])
    {
      var value := Trim(values[i]);
      if ':' !in value {
        return Err(BadPrincipal);
      }
      assert Trimmed(values)[..i + 1][..i] == Trimmed(values)[..i];
      if value !in out {
        out := out + [value];
      }
    }
    assert Trimmed(values)[..|values|] == Trimmed(values);
    TrimmedElements(values);
    return Ok(out);
  }

  lemma TrimmedElements(values: seq<string>)
    ensures Elements(Trimmed(values)) == set i | 0 <= i < |values| :: Trim(values[i])
  {
    forall x | x in Trimmed(values)
      ensures exists i :: 0 <= i < |values| && Trim(values[i]) == x
    {
      var i :| 0 <= i < |values| && Trimmed(values)[i] == x;
    }
    forall i | 0 <= i < |values|
      ensures Trim(values[i]) in Trimmed(values)
    {
      assert Trimmed(values)[i] == Trim(values[i]);
    }
  }

  /** `hosts`: those given, else every host when the matching principal flag is given. */
  function Hosts(values: seq<string>, principalGiven: bool): seq<string> {
    if values != [] then Trimmed(values)
    else if principalGiven then ["*"] else []
  }

  function Product(principals: set<string>, operations: set<Operation>, hosts: set<string>, permission: Permission)
    : set<Entry>
  {
    set p, o, h | p in principals && o in operations && h in hosts :: Entry(p, h, o, permission)
  }

  /** Every allowed principal from every allowed host, and every denied one, for each operation. */
  function EntriesOf(who: Parties, operations: set<Operation>): Result<set<Entry>, Error> {
    var allowed :- Principals(who.allowPrincipal);
    var denied :- Principals(who.denyPrincipal);
    if AnyOperation in operations && allowed + denied != {} then Err(OperationAny)
    else Ok(Product(allowed, operations, Elements(Hosts(who.allowHost, who.allowPrincipal != [])), Allow)
            + Product(denied, operations, Elements(Hosts(who.denyHost, who.denyPrincipal != [])), Deny))
  }

  method InsertHosts(entries: set<Entry>, principal: string, operation: Operation, hosts: seq<string>,
                     permission: Permission)
    returns (r: set<Entry>)
    ensures r == entries + Product({principal}, {operation}, Elements(hosts), permission)
  {
    r := entries;
    for k := 0 to |hosts|
      invariant r == entries + Product({principal}, {operation}, Elements(hosts[..k]), permission)
    {
      assert Elements(hosts[..k + 1]) == Elements(hosts[..k]) + {hosts[k]};
      r := r + {Entry(principal, hosts[k], operation, permission)};
    }
    assert hosts[..|hosts|] == hosts;
  }

  method InsertOperations(entries: set<Entry>, principal: string, operations: seq<Operation>, hosts: seq<string>,
                          permission: Permission)
    returns (r: Result<set<Entry>, Error>)
    ensures r == if AnyOperation in operations then Err(OperationAny)
                 else Ok(entries + Product({principal}, Elements(operations), Elements(hosts), permission))
  {
    var out := entries;
    for j := 0 to |operations|
      invariant AnyOperation !in operations[..j]
      invariant out == entries + Product({principal}, Elements(operations[..j]), Elements(hosts), permission)
    {
      if operations[j] == AnyOperation {
        return Err(OperationAny);
      }
      assert Elements(operations[..j + 1]) == Elements(operations[..j]) + {operations[j]};
      out := InsertHosts(out, principal, operations[j], hosts, permission);
    }
    assert operations[..|operations|] == operations;
    return Ok(out);
  }

  method InsertPrincipals(entries: set<Entry>, principals: seq<string>, operations: seq<Operation>, hosts: seq<string>,
                          permission: Permission)
    returns (r: Result<set<Entry>, Error>)
    ensures r == if AnyOperation in operations && principals != [] then Err(OperationAny)
                 else Ok(entries + Product(Elements(principals), Elements(operations), Elements(hosts), permission))
  {
    var out := entries;
    for i := 0 to |principals|
      invariant i > 0 ==> AnyOperation !in operations
      invariant out == entries + Product(Elements(principals[..i]), Elements(operations), Elements(hosts), permission)
    {
      assert Elements(principals[..i + 1]) == Elements(principals[..i]) + {principals[i]};
      out :- InsertOperations(out, principals[i], operations, hosts, permission);
    }
    assert principals[..|principals|] == principals;
    return Ok(out);
  }

  /** `entries`. */
  method Entries(who: Parties, operations: seq<Operation>) returns (r: Result<set<Entry>, Error>)
    ensures r == EntriesOf(who, Elements(operations))
  {
    var allowed :- ReadPrincipals(who.allowPrincipal);
    var denied :- ReadPrincipals(who.denyPrincipal);
    assert (allowed == [] <==> Elements(allowed) == {}) && (denied == [] <==> Elements(denied) == {}) by {
      assert allowed != [] ==> allowed[0] in Elements(allowed);
      assert denied != [] ==> denied[0] in Elements(denied);
    }
    assert Elements(allowed) + Elements(denied) == {} <==> allowed == [] && denied == [];
    var allowedHosts := Hosts(who.allowHost, who.allowPrincipal != []);
    var deniedHosts := Hosts(who.denyHost, who.denyPrincipal != []);
    var entries :- InsertPrincipals({}, allowed, operations, allowedHosts, Allow);
    assert AnyOperation in operations <==> AnyOperation in Elements(operations);
    entries :- InsertPrincipals(entries, denied, operations, deniedHosts, Deny);
    assert entries == Product(Elements(allowed), Elements(operations), Elements(allowedHosts), Allow)
                      + Product(Elements(denied), Elements(operations), Elements(deniedHosts), Deny);
    return Ok(entries);
  }

  // ----- Resources

  function Named(kind: ResourceType, names: seq<string>, trim: bool, pattern: PatternType): set<Resource> {
    set i | 0 <= i < |names| :: Resource(kind, if trim then Trim(names[i]) else names[i], pattern)
  }

  /** `resource_filters`: the resources that the flags name; `--cluster` counts only with a literal pattern. */
  function FiltersOf(s: Selectors, idempotent: bool, pattern: PatternType): set<Resource> {
    Named(Topic, s.topic, true, pattern)
    + (if pattern == Literal && (s.cluster || idempotent) then {CLUSTER} else {})
    + Named(Group, s.group, true, pattern)
    + Named(TransactionalId, s.transactionalId, false, pattern)
    + Named(DelegationToken, s.delegationToken, true, pattern)
    + Named(UserResource, s.userPrincipal, true, pattern)
  }

  function Required(filters: set<Resource>): Result<set<Resource>, Error> {
    if filters == {} then Err(NoResource) else Ok(filters)
  }

  function Get(acls: AclMap, r: Resource): set<Entry> {
    if r in acls then acls[r] else {}
  }

  function OperationsOf(args: Args): seq<Operation> {
    if args.operation == [] then [All]
    else seq(|args.operation|, i requires 0 <= i < |args.operation| => ParseOperation(Trim(args.operation[i])))
  }

  /** The entries of the explicit flags, the same on every resource. */
  function ExplicitAcls(who: Parties, operations: set<Operation>, filters: set<Resource>): Result<AclMap, Error> {
    var entries :- EntriesOf(who, operations);
    var resources :- Required(filters);
    Ok(map r | r in resources :: entries)
  }

  function ProducerEntries(filters: set<Resource>, topic: set<Entry>, transactional: set<Entry>): AclMap {
    map r | r in filters && r.kind in {Topic, TransactionalId} :: if r.kind == Topic then topic else transactional
  }

  /** The expansion of `--producer`. */
  function ProducerAcls(who: Parties, filters: set<Resource>, idempotent: bool): Result<AclMap, Error> {
    var topic :- EntriesOf(who, {Write, Describe, Create});
    var transactional :- EntriesOf(who, {Write, Describe});
    var resources :- Required(filters);
    var acls := ProducerEntries(resources, topic, transactional);
    if !idempotent then Ok(acls)
    else
      var entries :- EntriesOf(who, {IdempotentWrite});
      Ok(acls[CLUSTER := entries])
  }

  function ConsumerEntries(filters: set<Resource>, topic: set<Entry>, group: set<Entry>): AclMap {
    map r | r in filters && r.kind in {Topic, Group} :: if r.kind == Topic then topic else group
  }

  /** Two maps of entries, united resource by resource. */
  function Union(a: AclMap, b: AclMap): AclMap {
    map r | r in a.Keys + b.Keys :: Get(a, r) + Get(b, r)
  }

  /** The expansion of `--consumer`. */
  function ConsumerAcls(who: Parties, filters: set<Resource>): Result<AclMap, Error> {
    var topic :- EntriesOf(who, {Read, Describe});
    var group :- EntriesOf(who, {Read});
    var resources :- Required(filters);
    Ok(ConsumerEntries(resources, topic, group))
  }

  /** Every entry's operation is one that its resource supports. */
  predicate Valid(acls: AclMap) {
    forall r, e :: r in acls && e in acls[r] ==> Supports(r.kind, e.operation)
  }

  predicate Supports(kind: ResourceType, operation: Operation) {
    operation == All || operation in Supported(kind)
  }

  /** The entries of each resource, before their operations are checked. */
  function Expansion(args: Args, pattern: PatternType): Result<AclMap, Error> {
    var filters := FiltersOf(args.selectors, args.roles.idempotent, pattern);
    if !args.roles.producer && !args.roles.consumer then
      ExplicitAcls(args.parties, Elements(OperationsOf(args)), filters)
    else
      var produced :-
        if args.roles.producer then ProducerAcls(args.parties, filters, args.roles.idempotent) else Ok(map[]);
      var consumed :- if args.roles.consumer then ConsumerAcls(args.parties, filters) else Ok(map[]);
      Ok(Union(produced, consumed))
  }

  function Checked(acls: AclMap): Result<AclMap, Error> {
    if Valid(acls) then Ok(acls) else Err(UnsupportedOperation)
  }

  function ResourceAclsOf(args: Args, pattern: PatternType): Result<AclMap, Error> {
    var acls :- Expansion(args, pattern);
    Checked(acls)
  }

  method InsertSame(filters: set<Resource>, entries: set<Entry>) returns (acls: AclMap)
    ensures acls == map r | r in filters :: entries
  {
    acls := map[];
    var todo := filters;
    while todo != {}
      invariant todo <= filters
      invariant acls == map r | r in filters - todo :: entries
    {
      var r :| r in todo;
      todo := todo - {r};
      acls := acls[r := entries];
    }
    assert filters - todo == filters;
  }

  method InsertProducer(filters: set<Resource>, topic: set<Entry>, transactional: set<Entry>) returns (acls: AclMap)
    ensures acls == ProducerEntries(filters, topic, transactional)
  {
    acls := map[];
    var todo := filters;
    while todo != {}
      invariant todo <= filters
      invariant acls == ProducerEntries(filters - todo, topic, transactional)
    {
      var r :| r in todo;
      todo := todo - {r};
      if r.kind == Topic {
        acls := acls[r := topic];
      } else if r.kind == TransactionalId {
        acls := acls[r := transactional];
      }
    }
  }

  lemma UnionEmpty(a: AclMap)
    ensures Union(a, map[]) == a && Union(map[], a) == a
  {
    var right, left := Union(a, map[]), Union(map[], a);
    assert right.Keys == a.Keys && left.Keys == a.Keys;
    assert forall r :: r in a ==> right[r] == a[r] && left[r] == a[r];
  }

  lemma SameMaps(a: AclMap, b: AclMap)
    requires a.Keys == b.Keys && forall r :: r in a.Keys ==> Get(a, r) == Get(b, r)
    ensures a == b
  {
    assert forall r :: r in a ==> Get(a, r) == a[r] && Get(b, r) == b[r];
  }

  lemma UnionOne(before: AclMap, some: AclMap, r: Resource, entries: set<Entry>)
    requires r in some ==> some[r] == entries
    ensures var acls := Union(before, some); Union(before, some[r := entries]) == acls[r := Get(acls, r) + entries]
  {
    var acls := Union(before, some);
    var target, expected := Union(before, some[r := entries]), acls[r := Get(acls, r) + entries];
    assert target.Keys == expected.Keys;
    forall k | k in target.Keys
      ensures Get(target, k) == Get(expected, k)
    {
      assert Get(acls, k) == Get(before, k) + Get(some, k);
    }
    SameMaps(target, expected);
  }

  lemma ExtendOne(before: AclMap, done: set<Resource>, r: Resource, topic: set<Entry>, group: set<Entry>)
    ensures var acls := Union(before, ConsumerEntries(done, topic, group));
            Union(before, ConsumerEntries(done + {r}, topic, group))
            == if r.kind == Topic then acls[r := Get(acls, r) + topic]
               else if r.kind == Group then acls[r := Get(acls, r) + group]
               else acls
  {
    var some, more := ConsumerEntries(done, topic, group), ConsumerEntries(done + {r}, topic, group);
    if r.kind in {Topic, Group} {
      assert more == some[r := if r.kind == Topic then topic else group];
      UnionOne(before, some, r, if r.kind == Topic then topic else group);
    } else {
      assert more == some;
    }
  }

  method ExtendConsumer(before: AclMap, filters: set<Resource>, topic: set<Entry>, group: set<Entry>)
    returns (acls: AclMap)
    ensures acls == Union(before, ConsumerEntries(filters, topic, group))
  {
    acls := before;
    var todo := filters;
    UnionEmpty(before);
    assert ConsumerEntries(filters - todo, topic, group) == map[];
    while todo != {}
      invariant todo <= filters
      invariant acls == Union(before, ConsumerEntries(filters - todo, topic, group))
    {
      var r :| r in todo;
      ghost var done := filters - todo;
      todo := todo - {r};
      assert filters - todo == done + {r};
      ExtendOne(before, done, r, topic, group);
      if r.kind == Topic {
        acls := acls[r := Get(acls, r) + topic];
      } else if r.kind == Group {
        acls := acls[r := Get(acls, r) + group];
      }
    }
    assert filters - todo == filters;
  }

  method Explicit(who: Parties, operations: seq<Operation>, filters: set<Resource>) returns (r: Result<AclMap, Error>)
    ensures r == ExplicitAcls(who, Elements(operations), filters)
  {
    var entries :- Entries(who, operations);
    var resources :- Required(filters);
    var acls := InsertSame(resources, entries);
    return Ok(acls);
  }

  method Producer(who: Parties, filters: set<Resource>, idempotent: bool) returns (r: Result<AclMap, Error>)
    ensures r == ProducerAcls(who, filters, idempotent)
  {
    assert Elements([Write, Describe, Create]) == {Write, Describe, Create};
    assert Elements([Write, Describe]) == {Write, Describe};
    var topic :- Entries(who, [Write, Describe, Create]);
    var transactional :- Entries(who, [Write, Describe]);
    var resources :- Required(filters);
    var acls := InsertProducer(resources, topic, transactional);
    if idempotent {
      assert Elements([IdempotentWrite]) == {IdempotentWrite};
      var entries :- Entries(who, [IdempotentWrite]);
      acls := acls[CLUSTER := entries];
    }
    return Ok(acls);
  }

  /** What the consumer expansion adds to `before`. */
  function Added(before: AclMap, consumed: Result<AclMap, Error>): Result<AclMap, Error> {
    var acls :- consumed;
    Ok(Union(before, acls))
  }

  method Consumer(before: AclMap, who: Parties, filters: set<Resource>) returns (r: Result<AclMap, Error>)
    ensures r == Added(before, ConsumerAcls(who, filters))
  {
    assert Elements([Read, Describe]) == {Read, Describe} && Elements([Read]) == {Read};
    var topic :- Entries(who, [Read, Describe]);
    var group :- Entries(who, [Read]);
    var resources :- Required(filters);
    var acls := ExtendConsumer(before, resources, topic, group);
    return Ok(acls);
  }

  /** `resource_acls`. */
  method ResourceAcls(args: Args, pattern: PatternType) returns (r: Result<AclMap, Error>)
    ensures r == ResourceAclsOf(args, pattern)
  {
    var acls: AclMap := map[];
    var filters := FiltersOf(args.selectors, args.roles.idempotent, pattern);
    if !args.roles.producer && !args.roles.consumer {
      acls :- Explicit(args.parties, OperationsOf(args), filters);
    }
    if args.roles.producer {
      acls :- Producer(args.parties, filters, args.roles.idempotent);
      UnionEmpty(acls);
    }
    if args.roles.consumer {
      acls :- Consumer(acls, args.parties, filters);
    }
    return Checked(acls);
  }

  // ----- The plan

  function Count(b: bool): nat { if b then 1 else 0 }

  /** The checks that come before any resource is looked at. */
  function CheckFlags(args: Args): Result<(), Error> {
    var Action(add, remove, list) := args.action;
    var Roles(producer, consumer, idempotent) := args.roles;
    var who, selected := args.parties, args.selectors;
    var explicit := who.allowHost != [] || who.allowPrincipal != [] || who.denyHost != [] || who.denyPrincipal != [];
    var refused := args.operation != [] || who.denyPrincipal != [] || who.denyHost != [];
    if !args.bootstrap then Err(NoBootstrap)
    else if Count(add) + Count(remove) + Count(list) != 1 then Err(NotOneAction)
    else if list && (producer || consumer || explicit) then Err(InvalidWith)
    else if (producer || consumer) && refused then Err(InvalidWith)
    else if args.principal.Some? && !list then Err(PrincipalNeedsList)
    else if producer && selected.topic == [] then Err(ProducerNeedsTopic)
    else if idempotent && !producer then Err(IdempotentNeedsProducer)
    else if consumer && (selected.topic == [] || selected.group == []
                         || (!producer && (selected.cluster || selected.transactionalId != []))) then Err(ConsumerNeeds)
    else if list && args.dryRun then Err(DryRunWithList)
    else Ok(())
  }

  /** `plan`. */
  function PlanOf(args: Args): Result<Plan, Error> {
    var _ :- CheckFlags(args);
    var pattern :- ParsePattern(args.pattern);
    if args.action.list then
      var _ :- if args.principal.Some? then Principals(args.principal.value) else Ok({});
      Ok(List(FiltersOf(args.selectors, args.roles.idempotent, pattern)))
    else if args.action.remove then
      var acls :- ResourceAclsOf(args, pattern);
      Ok(Remove(acls))
    else if !Specific(pattern) then Err(PatternNotSpecific)
    else
      var acls :- ResourceAclsOf(args, pattern);
      if exists r :: r in acls && acls[r] == {} then Err(NoPrincipal) else Ok(Add(acls))
  }

  predicate Specific(pattern: PatternType) {
    pattern == Literal || pattern == Prefixed
  }
}
