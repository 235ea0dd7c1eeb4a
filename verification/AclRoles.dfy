/** What the producer and consumer roles expand to, and which adds are accepted. */
module AclRoles {
  import opened Wrappers
  import opened Text
  import opened Acls

  // ----- Roles

  predicate HaveColons(values: seq<string>) {
    forall i :: 0 <= i < |values| ==> ':' in Trim(values[i])
  }

  /** Entries exist exactly for well-formed principals, and hold only the operations asked for. */
  lemma EntriesHold(who: Parties, operations: set<Operation>)
    requires AnyOperation !in operations
    ensures EntriesOf(who, operations) == Err(BadPrincipal) || EntriesOf(who, operations).Ok?
    ensures EntriesOf(who, operations).Ok? <==> HaveColons(who.allowPrincipal) && HaveColons(who.denyPrincipal)
    ensures EntriesOf(who, operations).Ok? ==>
              forall e :: e in EntriesOf(who, operations).value ==> e.operation in operations
  {
  }

  lemma ProducerValid(who: Parties, filters: set<Resource>, idempotent: bool)
    ensures ProducerAcls(who, filters, idempotent).Ok? ==> Valid(ProducerAcls(who, filters, idempotent).value)
  {
    EntriesHold(who, {Write, Describe, Create});
    EntriesHold(who, {Write, Describe});
    EntriesHold(who, {IdempotentWrite});
  }

  lemma ConsumerValid(who: Parties, filters: set<Resource>)
    ensures ConsumerAcls(who, filters).Ok? ==> Valid(ConsumerAcls(who, filters).value)
  {
    EntriesHold(who, {Read, Describe});
    EntriesHold(who, {Read});
  }

  lemma UnionValid(a: AclMap, b: AclMap)
    requires Valid(a) && Valid(b)
    ensures Valid(Union(a, b))
  {
  }

  /** Both roles together give each resource what the two roles give it apart, and fail when either does. */
  lemma {:induction false} RolesUnite(args: Args, pattern: PatternType)
    requires args.roles.producer && args.roles.consumer
    ensures var both := ResourceAclsOf(args, pattern);
            var producer := ResourceAclsOf(args.(roles := args.roles.(consumer := false)), pattern);
            var consumer := ResourceAclsOf(args.(roles := args.roles.(producer := false)), pattern);
            && (both.Ok? <==> producer.Ok? && consumer.Ok?)
            && (both.Ok? ==>
                  && both.value.Keys == producer.value.Keys + consumer.value.Keys
                  && forall r :: Get(both.value, r) == Get(producer.value, r) + Get(consumer.value, r))
  {
    var filters := FiltersOf(args.selectors, args.roles.idempotent, pattern);
    var produced := ProducerAcls(args.parties, filters, args.roles.idempotent);
    var consumed := ConsumerAcls(args.parties, filters);
    ProducerValid(args.parties, filters, args.roles.idempotent);
    ConsumerValid(args.parties, filters);
    if produced.Ok? {
      UnionEmpty(produced.value);
    }
    if consumed.Ok? {
      UnionEmpty(consumed.value);
    }
    if produced.Ok? && consumed.Ok? {
      UnionValid(produced.value, consumed.value);
    }
  }

  // ----- Which adds are accepted

  /** Each operation has an entry when a principal is given, and there is none without. */
  lemma EntriesExist(who: Parties, operations: set<Operation>)
    requires EntriesOf(who, operations).Ok?
    ensures who.allowPrincipal != [] || who.denyPrincipal != [] ==>
              forall o :: o in operations ==> exists e :: e in EntriesOf(who, operations).value && e.operation == o
    ensures who.allowPrincipal == [] && who.denyPrincipal == [] ==> EntriesOf(who, operations).value == {}
  {
    forall o | o in operations && (who.allowPrincipal != [] || who.denyPrincipal != [])
      ensures exists e :: e in EntriesOf(who, operations).value && e.operation == o
    {
      if who.allowPrincipal != [] {
        EntryExists(who.allowPrincipal, who.allowHost, operations, Allow, o);
      } else {
        EntryExists(who.denyPrincipal, who.denyHost, operations, Deny, o);
      }
    }
  }

  lemma EntryExists(principals: seq<string>, hosts: seq<string>, operations: set<Operation>, permission: Permission,
                    o: Operation)
    requires principals != [] && Principals(principals).Ok? && o in operations
    ensures exists e ::
              && e in Product(Principals(principals).value, operations, Elements(Hosts(hosts, true)), permission)
              && e.operation == o
  {
    var host := Hosts(hosts, true)[0];
    assert host in Elements(Hosts(hosts, true)) && Trim(principals[0]) in Principals(principals).value;
    var e := Entry(Trim(principals[0]), host, o, permission);
    assert e in Product(Principals(principals).value, operations, Elements(Hosts(hosts, true)), permission);
    assert e.operation == o;
  }

  /** The entries of a role are there for well-formed principals, and empty exactly without any. */
  lemma RoleEntries(who: Parties, operations: set<Operation>, o: Operation)
    requires AnyOperation !in operations && o in operations && who.denyPrincipal == []
    ensures EntriesOf(who, operations).Ok? <==> HaveColons(who.allowPrincipal)
    ensures EntriesOf(who, operations).Ok? ==> (EntriesOf(who, operations).value == {} <==> who.allowPrincipal == [])
  {
    EntriesHold(who, operations);
    if EntriesOf(who, operations).Ok? {
      EntriesExist(who, operations);
    }
  }

  ghost predicate AllEmptyOrNone(acls: AclMap, empty: bool) {
    forall r :: r in acls ==> (acls[r] == {} <==> empty)
  }

  lemma ProducerFills(who: Parties, filters: set<Resource>, idempotent: bool)
    requires filters != {} && who.denyPrincipal == []
    ensures ProducerAcls(who, filters, idempotent).Ok? <==> HaveColons(who.allowPrincipal)
    ensures ProducerAcls(who, filters, idempotent).Ok? ==>
              AllEmptyOrNone(ProducerAcls(who, filters, idempotent).value, who.allowPrincipal == [])
    ensures ProducerAcls(who, filters, idempotent).Ok? ==>
              forall r :: r in filters && r.kind == Topic ==> r in ProducerAcls(who, filters, idempotent).value
  {
    RoleEntries(who, {Write, Describe, Create}, Write);
    RoleEntries(who, {Write, Describe}, Write);
    RoleEntries(who, {IdempotentWrite}, IdempotentWrite);
  }

  lemma ConsumerFills(who: Parties, filters: set<Resource>)
    requires filters != {} && who.denyPrincipal == []
    ensures ConsumerAcls(who, filters).Ok? <==> HaveColons(who.allowPrincipal)
    ensures ConsumerAcls(who, filters).Ok? ==>
              AllEmptyOrNone(ConsumerAcls(who, filters).value, who.allowPrincipal == [])
    ensures ConsumerAcls(who, filters).Ok? ==>
              forall r :: r in filters && r.kind == Topic ==> r in ConsumerAcls(who, filters).value
  {
    RoleEntries(who, {Read, Describe}, Read);
    RoleEntries(who, {Read}, Read);
  }

  lemma UnionFills(a: AclMap, b: AclMap, empty: bool)
    requires AllEmptyOrNone(a, empty) && AllEmptyOrNone(b, empty)
    ensures AllEmptyOrNone(Union(a, b), empty)
  {
  }

  lemma RoleExpansion(args: Args, pattern: PatternType, topic: Resource)
    requires (args.roles.producer || args.roles.consumer) && args.parties.denyPrincipal == []
    requires topic in FiltersOf(args.selectors, args.roles.idempotent, pattern) && topic.kind == Topic
    ensures ResourceAclsOf(args, pattern).Ok? <==> HaveColons(args.parties.allowPrincipal)
    ensures ResourceAclsOf(args, pattern).Ok? ==>
              topic in ResourceAclsOf(args, pattern).value
              && AllEmptyOrNone(ResourceAclsOf(args, pattern).value, args.parties.allowPrincipal == [])
  {
    var filters, who := FiltersOf(args.selectors, args.roles.idempotent, pattern), args.parties;
    ProducerFills(who, filters, args.roles.idempotent);
    ConsumerFills(who, filters);
    ProducerValid(who, filters, args.roles.idempotent);
    ConsumerValid(who, filters);
    if HaveColons(who.allowPrincipal) {
      var produced := if args.roles.producer then ProducerAcls(who, filters, args.roles.idempotent).value else map[];
      var consumed := if args.roles.consumer then ConsumerAcls(who, filters).value else map[];
      UnionValid(produced, consumed);
      UnionFills(produced, consumed, who.allowPrincipal == []);
    }
  }

  /** An add for a role is accepted exactly for good flags, a concrete pattern and well-formed principals. */
  lemma {:induction false} RoleAddAccepted(args: Args)
    requires args.action.add && (args.roles.producer || args.roles.consumer)
    ensures PlanOf(args).Ok? <==>
              && CheckFlags(args).Ok?
              && ParsePattern(args.pattern).Ok? && Specific(ParsePattern(args.pattern).value)
              && args.parties.allowPrincipal != [] && HaveColons(args.parties.allowPrincipal)
  {
    if CheckFlags(args).Ok? && ParsePattern(args.pattern).Ok? {
      var pattern := ParsePattern(args.pattern).value;
      var topic := Resource(Topic, Trim(args.selectors.topic[0]), pattern);
      assert topic in FiltersOf(args.selectors, args.roles.idempotent, pattern) by {
        assert topic in Named(Topic, args.selectors.topic, true, pattern);
      }
      RoleExpansion(args, pattern, topic);
    }
  }

  ghost predicate AllSupport(resources: set<Resource>, operations: set<Operation>) {
    forall r, o :: r in resources && o in operations ==> Supports(r.kind, o)
  }

  lemma ExplicitValid(who: Parties, operations: set<Operation>, filters: set<Resource>)
    requires ExplicitAcls(who, operations, filters).Ok? && (who.allowPrincipal != [] || who.denyPrincipal != [])
    ensures Valid(ExplicitAcls(who, operations, filters).value)
            <==> AllSupport(filters, operations)
  {
    EntriesExist(who, operations);
    var acls := ExplicitAcls(who, operations, filters).value;
    if Valid(acls) {
      forall r, o | r in filters && o in operations
        ensures Supports(r.kind, o)
      {
        var e :| e in EntriesOf(who, operations).value && e.operation == o;
        assert e in acls[r];
      }
    }
  }

  /** An explicit add is accepted exactly when every resource named supports every operation named. */
  lemma {:induction false} ExplicitAddAccepted(args: Args)
    requires args.action.add && !args.roles.producer && !args.roles.consumer
    ensures PlanOf(args).Ok? <==>
              && CheckFlags(args).Ok?
              && ParsePattern(args.pattern).Ok? && Specific(ParsePattern(args.pattern).value)
              && HaveColons(args.parties.allowPrincipal) && HaveColons(args.parties.denyPrincipal)
              && (args.parties.allowPrincipal != [] || args.parties.denyPrincipal != [])
              && var filters := FiltersOf(args.selectors, args.roles.idempotent, ParsePattern(args.pattern).value);
                 filters != {} && AllSupport(filters, Elements(OperationsOf(args)))
  {
    if CheckFlags(args).Ok? && ParsePattern(args.pattern).Ok? {
      var operations := Elements(OperationsOf(args));
      var filters := FiltersOf(args.selectors, args.roles.idempotent, ParsePattern(args.pattern).value);
      ExplicitExpansion(args.parties, operations, OperationsOf(args)[0], filters);
    }
  }

  lemma ExplicitExpansion(who: Parties, operations: set<Operation>, o: Operation, filters: set<Resource>)
    requires o in operations
    ensures var r := ExplicitAcls(who, operations, filters);
            (r.Ok? && Valid(r.value) && forall k :: k in r.value ==> r.value[k] != {})
            <==> && HaveColons(who.allowPrincipal) && HaveColons(who.denyPrincipal)
                 && (who.allowPrincipal != [] || who.denyPrincipal != [])
                 && filters != {} && AllSupport(filters, operations)
  {
    var r := ExplicitAcls(who, operations, filters);
    if r.Ok? {
      EntriesExist(who, operations);
      if who.allowPrincipal != [] || who.denyPrincipal != [] {
        ExplicitValid(who, operations, filters);
      } else {
        var k :| k in filters;
        assert r.value[k] == {};
      }
    } else if filters != {} {
      var k :| k in filters;
      assert Supports(k.kind, AnyOperation) ==> false;
    }
  }
}
