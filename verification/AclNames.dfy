/** The names and tables of ACLs, stated a second way. */
module AclNames {
  import opened Wrappers
  import opened Text
  import opened Acls
  import opened AclRequests

  // ----- Words of the command line

  /** The name that `--operation` takes, in any case. */
  function PascalName(o: Operation): string {
    match o
    case Unknown => "Unknown" case AnyOperation => "Any" case All => "All" case Read => "Read" case Write => "Write"
    case Create => "Create" case Delete => "Delete" case Alter => "Alter" case Describe => "Describe"
    case ClusterAction => "ClusterAction" case DescribeConfigs => "DescribeConfigs"
    case AlterConfigs => "AlterConfigs" case IdempotentWrite => "IdempotentWrite" case CreateTokens => "CreateTokens"
    case DescribeTokens => "DescribeTokens" case TwoPhaseCommit => "TwoPhaseCommit"
  }

  function LowerName(o: Operation): string {
    match o
    case Unknown => "unknown" case AnyOperation => "any" case All => "all" case Read => "read" case Write => "write"
    case Create => "create" case Delete => "delete" case Alter => "alter" case Describe => "describe"
    case ClusterAction => "clusteraction" case DescribeConfigs => "describeconfigs"
    case AlterConfigs => "alterconfigs" case IdempotentWrite => "idempotentwrite" case CreateTokens => "createtokens"
    case DescribeTokens => "describetokens" case TwoPhaseCommit => "twophasecommit"
  }

  lemma NamesAlike1(o: Operation)
    requires o in {Unknown, AnyOperation, All, Read, Write, Create}
    ensures SameIgnoringCase(LowerName(o), PascalName(o))
  {
  }

  lemma NamesAlike2(o: Operation)
    requires o in {Delete, Alter, Describe, ClusterAction, DescribeConfigs}
    ensures SameIgnoringCase(LowerName(o), PascalName(o))
  {
  }

  lemma NamesAlike3(o: Operation)
    requires o in {AlterConfigs, IdempotentWrite, CreateTokens, DescribeTokens, TwoPhaseCommit}
    ensures SameIgnoringCase(LowerName(o), PascalName(o))
  {
  }

  lemma NamesAlike(o: Operation)
    ensures SameIgnoringCase(LowerName(o), PascalName(o))
  {
    if o in {Unknown, AnyOperation, All, Read, Write, Create} {
      NamesAlike1(o);
    } else if o in {Delete, Alter, Describe, ClusterAction, DescribeConfigs} {
      NamesAlike2(o);
    } else {
      NamesAlike3(o);
    }
  }

  lemma LowerIsLower(o: Operation)
    ensures Lower(LowerName(o)) == LowerName(o)
  {
    AlreadyLower(LowerName(o));
  }

  lemma ParsedByLower1(s: string, o: Operation)
    requires o != Unknown && o in {Unknown, AnyOperation, All, Read, Write, Create}
    ensures ParseOperation(s) == o <==> Lower(s) == LowerName(o)
  {
  }

  lemma ParsedByLower2(s: string, o: Operation)
    requires o != Unknown && o in {Delete, Alter, Describe, ClusterAction, DescribeConfigs}
    ensures ParseOperation(s) == o <==> Lower(s) == LowerName(o)
  {
  }

  lemma ParsedByLower3(s: string, o: Operation)
    requires o != Unknown && o in {AlterConfigs, IdempotentWrite, CreateTokens, DescribeTokens, TwoPhaseCommit}
    ensures ParseOperation(s) == o <==> Lower(s) == LowerName(o)
  {
  }

  lemma ParsedByLower(s: string, o: Operation)
    requires o != Unknown
    ensures ParseOperation(s) == o <==> Lower(s) == LowerName(o)
  {
    if o in {Unknown, AnyOperation, All, Read, Write, Create} {
      ParsedByLower1(s, o);
    } else if o in {Delete, Alter, Describe, ClusterAction, DescribeConfigs} {
      ParsedByLower2(s, o);
    } else {
      ParsedByLower3(s, o);
    }
  }

  /** An operation is named by its Pascal-case name in any case, and by nothing else. */
  lemma {:induction false} OperationNamed(s: string, o: Operation)
    requires o != Unknown
    ensures ParseOperation(s) == o <==> SameIgnoringCase(s, PascalName(o))
  {
    ParsedByLower(s, o);
    NamesAlike(o);
    LowerIsLower(o);
    LowerExactly(s, PascalName(o));
    LowerExactly(LowerName(o), PascalName(o));
  }

  function PatternName(p: PatternType): string {
    match p
    case AnyPattern => "ANY"
    case MatchPattern => "MATCH"
    case Literal => "LITERAL"
    case Prefixed => "PREFIXED"
  }

  function LowerPattern(p: PatternType): string {
    match p
    case AnyPattern => "any"
    case MatchPattern => "match"
    case Literal => "literal"
    case Prefixed => "prefixed"
  }

  /** A pattern type is named by its Java name in any case, and by nothing else. */
  lemma {:induction false} PatternNamed(s: string, p: PatternType)
    ensures ParsePattern(s) == Ok(p) <==> SameIgnoringCase(s, PatternName(p))
  {
    PatternByLower(s, p);
    PatternsAlike(p);
    LowerExactly(s, PatternName(p));
    LowerExactly(LowerPattern(p), PatternName(p));
  }

  lemma PatternByLower(s: string, p: PatternType)
    ensures ParsePattern(s) == Ok(p) <==> Lower(s) == LowerPattern(p)
  {
  }

  lemma PatternsAlike(p: PatternType)
    ensures SameIgnoringCase(LowerPattern(p), PatternName(p)) && Lower(LowerPattern(p)) == LowerPattern(p)
  {
    PatternLetters(p);
    AlreadyLower(LowerPattern(p));
  }

  lemma PatternLetters(p: PatternType)
    ensures SameIgnoringCase(LowerPattern(p), PatternName(p))
    ensures forall i :: 0 <= i < |LowerPattern(p)| ==> 'a' <= LowerPattern(p)[i] <= 'z'
  {
  }

  // ----- What each operation applies to

  /** The resource types on which an operation can be named. */
  function AppliesTo(o: Operation): set<ResourceType> {
    match o
    case Unknown => {}
    case AnyOperation => {}
    case All => {Topic, Group, Cluster, TransactionalId, DelegationToken, UserResource}
    case Read => {Topic, Group}
    case Write => {Topic, TransactionalId}
    case Create => {Topic, Cluster}
    case Delete => {Topic, Group}
    case Alter => {Topic, Cluster}
    case Describe => {Topic, Group, Cluster, TransactionalId, DelegationToken}
    case ClusterAction => {Cluster}
    case DescribeConfigs => {Topic, Group, Cluster}
    case AlterConfigs => {Topic, Group, Cluster}
    case IdempotentWrite => {Cluster}
    case CreateTokens => {UserResource}
    case DescribeTokens => {UserResource}
    case TwoPhaseCommit => {TransactionalId}
  }

  /** The table by resource type and the table by operation say the same. */
  lemma {:induction false} SupportedExactly(kind: ResourceType, o: Operation)
    ensures Supports(kind, o) <==> kind in AppliesTo(o)
  {
  }

  // ----- The wire

  function JavaName(o: Operation): string {
    match o
    case Unknown => "UNKNOWN" case AnyOperation => "ANY" case All => "ALL" case Read => "READ" case Write => "WRITE"
    case Create => "CREATE" case Delete => "DELETE" case Alter => "ALTER" case Describe => "DESCRIBE"
    case ClusterAction => "CLUSTER_ACTION" case DescribeConfigs => "DESCRIBE_CONFIGS"
    case AlterConfigs => "ALTER_CONFIGS" case IdempotentWrite => "IDEMPOTENT_WRITE"
    case CreateTokens => "CREATE_TOKENS" case DescribeTokens => "DESCRIBE_TOKENS"
    case TwoPhaseCommit => "TWO_PHASE_COMMIT"
  }

  function WireName(o: WireOperation): string {
    match o
    case WireAll => "ALL" case WireRead => "READ" case WireWrite => "WRITE" case WireCreate => "CREATE"
    case WireDelete => "DELETE" case WireAlter => "ALTER" case WireDescribe => "DESCRIBE"
    case WireClusterAction => "CLUSTER_ACTION" case WireDescribeConfigs => "DESCRIBE_CONFIGS"
    case WireAlterConfigs => "ALTER_CONFIGS" case WireIdempotentWrite => "IDEMPOTENT_WRITE"
    case WireTwoPhaseCommit => "TWO_PHASE_COMMIT" case WireCreateTokens => "CREATE_TOKENS"
    case WireDescribeTokens => "DESCRIBE_TOKENS"
  }

  /** A binding carries its resource, principal, host and permission, and the operation and pattern by name. */
  lemma {:induction false} BindingNames(e: Entry, r: Resource)
    requires ToBinding(e, r).Ok?
    ensures var b := ToBinding(e, r).value;
            && b.kind == r.kind && b.name == r.name && b.principal == e.principal && b.host == e.host
            && b.permission == e.permission && WireName(b.operation) == JavaName(e.operation)
            && (b.pattern == WireLiteral <==> r.pattern == Literal)
            && (b.pattern == WirePrefixed <==> r.pattern == Prefixed)
  {
  }

  /** A filter of an entry carries all of it, and the pattern unless that is any. */
  lemma {:induction false} FilterNames(e: Entry, r: Resource)
    requires EntryFilter(e, ResourceFilter(r)).Ok?
    ensures var f := EntryFilter(e, ResourceFilter(r)).value;
            && f.kind == Some(r.kind) && f.name == Some(r.name) && f.principal == Some(e.principal)
            && f.host == Some(e.host) && f.permission == Some(e.permission)
            && f.operation.Some? && WireName(f.operation.value) == JavaName(e.operation)
            && (f.pattern == None <==> r.pattern == AnyPattern)
            && (f.pattern == Some(WireMatch) <==> r.pattern == MatchPattern)
            && (f.pattern == Some(WireLiteral) <==> r.pattern == Literal)
  {
  }

  // ----- Flags

  /** Flags that can be used together. */
  predicate Compatible(args: Args) {
    var who, selected, roles := args.parties, args.selectors, args.roles;
    var role := roles.producer || roles.consumer;
    && args.bootstrap
    && OneAction(args.action)
    && (args.action.list ==> !role && !args.dryRun && NoParties(who))
    && (role ==> args.operation == [] && who.denyPrincipal == [] && who.denyHost == [] && selected.topic != [])
    && (args.principal.Some? ==> args.action.list)
    && (roles.idempotent ==> roles.producer)
    && (roles.consumer ==> selected.group != [])
    && (roles.consumer && !roles.producer ==> !selected.cluster && selected.transactionalId == [])
  }

  predicate OneAction(a: Action) {
    (a.add && !a.remove && !a.list) || (!a.add && a.remove && !a.list) || (!a.add && !a.remove && a.list)
  }

  predicate NoParties(who: Parties) {
    who.allowPrincipal == [] && who.allowHost == [] && who.denyPrincipal == [] && who.denyHost == []
  }

  /** The flags are accepted exactly when they can be used together. */
  lemma {:induction false} FlagsExactly(args: Args)
    ensures CheckFlags(args).Ok? <==> Compatible(args)
  {
  }
}
