/** The operation catalog: its validation, and the normal form its hash is taken of. */
module Catalog {
  import opened Common
  import opened Evaluator
  import opened Permutations
  import Ordering

  datatype Catalog = Catalog(version: int, workspaceRoles: seq<string>, projectRoles: seq<string>,
                             operations: seq<Operation>)

  const CURRENT_VERSION: int := 1

  // ---- normal form ---------------------------------------------------------

  function InsertName(x: string, xs: seq<string>): seq<string> {
    if xs == [] || Ordering.Leq(x, xs[0]) then [x] + xs else [xs[0]] + InsertName(x, xs[1..])
  }

  /** The names in ascending order. */
  function SortedNames(xs: seq<string>): seq<string> {
    if xs == [] then [] else InsertName(xs[0], SortedNames(xs[1..]))
  }

  lemma {:induction false} InsertNameKeepsMembers(x: string, xs: seq<string>)
    ensures multiset(InsertName(x, xs)) == multiset(xs) + multiset{x}
    ensures |InsertName(x, xs)| == |xs| + 1
  {
    if xs != [] && !Ordering.Leq(x, xs[0]) {
      InsertNameKeepsMembers(x, xs[1..]);
      assert xs == [xs[0]] + xs[1..];
    }
  }

  ghost predicate Ascending(xs: seq<string>) { Ordering.SortedBy(xs, Ordering.Itself) }

  lemma AscendingCons(x: string, xs: seq<string>)
    requires Ascending(xs) && (xs != [] ==> Ordering.Leq(x, xs[0]))
    ensures Ascending([x] + xs)
  {
    var all := [x] + xs;
    forall i, j | 0 <= i < j < |all| ensures Ordering.Leq(all[i], all[j]) {
      if i == 0 && j > 1 {
        assert Ordering.Leq(Ordering.Itself(xs[0]), Ordering.Itself(xs[j - 1]));
        Ordering.LeqTransitive(x, xs[0], xs[j - 1]);
      } else if i > 0 {
        assert Ordering.Leq(Ordering.Itself(xs[i - 1]), Ordering.Itself(xs[j - 1]));
      }
    }
  }

  lemma AscendingTail(xs: seq<string>)
    requires Ascending(xs) && xs != []
    ensures Ascending(xs[1..])
  {
    var tail := xs[1..];
    forall i, j | 0 <= i < j < |tail| ensures Ordering.Leq(Ordering.Itself(tail[i]), Ordering.Itself(tail[j])) {
      assert Ordering.Leq(Ordering.Itself(xs[i + 1]), Ordering.Itself(xs[j + 1]));
    }
  }

  lemma {:induction false} InsertNameAscends(x: string, xs: seq<string>)
    requires Ascending(xs)
    ensures Ascending(InsertName(x, xs))
  {
    if xs == [] || Ordering.Leq(x, xs[0]) {
      AscendingCons(x, xs);
    } else {
      var (y, rest) := (xs[0], xs[1..]);
      AscendingTail(xs);
      InsertNameAscends(x, rest);
      Ordering.LessTotal(x, y);
      if rest != [] {
        assert Ordering.Leq(Ordering.Itself(xs[0]), Ordering.Itself(xs[1]));
      }
      AscendingCons(y, InsertName(x, rest));
    }
  }

  lemma {:induction false} SortedNamesSorts(xs: seq<string>)
    ensures Ascending(SortedNames(xs)) && multiset(SortedNames(xs)) == multiset(xs)
    ensures |SortedNames(xs)| == |xs|
  {
    if xs != [] {
      SortedNamesSorts(xs[1..]);
      InsertNameAscends(xs[0], SortedNames(xs[1..]));
      InsertNameKeepsMembers(xs[0], SortedNames(xs[1..]));
      assert xs == [xs[0]] + xs[1..];
    }
  }

  /** Sorting forgets the order and nothing else. */
  lemma SortedNamesForgetOrder(xs: seq<string>, ys: seq<string>)
    ensures SortedNames(xs) == SortedNames(ys) <==> multiset(xs) == multiset(ys)
  {
    SortedNamesSorts(xs);
    SortedNamesSorts(ys);
    if multiset(xs) == multiset(ys) {
      Ordering.SortedUnique(SortedNames(xs), SortedNames(ys), Ordering.Itself);
    }
  }

  method NormalizeNames(xs: seq<string>) returns (out: seq<string>)
    ensures out == SortedNames(xs)
  {
    if |xs| == 0 {
      return [];
    }
    out := Ordering.Sort(xs, Ordering.Itself);
    SortedNamesSorts(xs);
    Ordering.SortedUnique(out, SortedNames(xs), Ordering.Itself);
  }

  /** Omitted fields spelled out. */
  function Filled(op: Operation): Operation {
    op.(assurance := if op.assurance == AssuranceOmitted then AssuranceNone else op.assurance,
        recentAuth := if op.recentAuth == RecentOmitted then RecentNone else op.recentAuth,
        idempotency := if op.idempotency == IdempotencyOmitted then IdempotencyNone else op.idempotency)
  }

  function NormalOperation(op: Operation): Operation {
    Filled(op).(workspaceRoles := SortedNames(op.workspaceRoles), projectRoles := SortedNames(op.projectRoles),
                rules := SortedNames(op.rules))
  }

  function Id(op: Operation): string { op.id }

  /** Everything in normal order; operations of the same id may end up either way round, because
      the sort is not stable. */
  ghost predicate NormalForm(c: Catalog, n: Catalog) {
    && n.version == c.version
    && n.workspaceRoles == SortedNames(c.workspaceRoles)
    && n.projectRoles == SortedNames(c.projectRoles)
    && Ordering.SortedPermutation(Mapped(c.operations, NormalOperation), n.operations, Id)
  }

  method Normalize(c: Catalog) returns (n: Catalog)
    ensures NormalForm(c, n)
  {
    var workspace := NormalizeNames(c.workspaceRoles);
    var project := NormalizeNames(c.projectRoles);
    var ops: seq<Operation> := [];
    for i := 0 to |c.operations|
      invariant |ops| == i && forall j :: 0 <= j < i ==> ops[j] == NormalOperation(c.operations[j])
    {
      var op := c.operations[i];
      if op.assurance == AssuranceOmitted {
        op := op.(assurance := AssuranceNone);
      }
      if op.recentAuth == RecentOmitted {
        op := op.(recentAuth := RecentNone);
      }
      if op.idempotency == IdempotencyOmitted {
        op := op.(idempotency := IdempotencyNone);
      }
      var ws := NormalizeNames(op.workspaceRoles);
      var pr := NormalizeNames(op.projectRoles);
      var rules := NormalizeNames(op.rules);
      ops := ops + [op.(workspaceRoles := ws, projectRoles := pr, rules := rules)];
    }
    assert ops == Mapped(c.operations, NormalOperation);
    ops := Ordering.Sort(ops, Id);
    n := Catalog(c.version, workspace, project, ops);
  }

  // ---- validation ----------------------------------------------------------

  predicate ClosedName(name: string) {
    name != "" && forall i :: 0 <= i < |name| ==> name[i] !in {' ', '\t', '\r', '\n', '*'}
  }

  datatype SemanticsFault =
    | AnonymousOutsidePlatform | PlatformMethod | PlatformRoles | SessionOnly | WorkspaceRolesOnly
    | ProjectRolesOnly | CredentialMethod | CredentialWorkspaceRoles | TokenNeedsRoles | MachineHasRoles
    | UndefinedScope | SessionAssurance | MFANeedsAAL2 | WindowForbidden | WindowRequired
    | AssuranceOutsideSession | RecentAuthOutsideSession

  function SemanticsFaultOf(op: Operation): Option<SemanticsFault> {
    if op.authMethod == Unauthenticated && op.scope != Platform then Some(AnonymousOutsidePlatform)
    else if ScopeFault(op).Some? then ScopeFault(op)
    else if op.authMethod == SessionMethod then
      if op.assurance != AAL1 && op.assurance != AAL2 then Some(SessionAssurance)
      else if op.recentAuth == PasswordAndMFA && op.assurance != AAL2 then Some(MFANeedsAAL2)
      else if op.recentAuth == RecentNone then if op.windowSeconds != 0 then Some(WindowForbidden) else None
      else if op.windowSeconds <= 0 then Some(WindowRequired) else None
    else if op.assurance != AssuranceNone then Some(AssuranceOutsideSession)
    else if op.recentAuth != RecentNone then Some(RecentAuthOutsideSession)
    else None
  }

  function ScopeFault(op: Operation): Option<SemanticsFault> {
    match op.scope
    case Platform =>
      if op.authMethod != Unauthenticated && op.authMethod != SessionMethod then Some(PlatformMethod)
      else if |op.workspaceRoles| != 0 || |op.projectRoles| != 0 then Some(PlatformRoles) else None
    case WorkspacePath => WorkspaceScopeFault(op)
    case ProjectGovernance => WorkspaceScopeFault(op)
    case ProjectPath =>
      if op.authMethod != SessionMethod then Some(SessionOnly)
      else if |op.projectRoles| == 0 || |op.workspaceRoles| != 0 then Some(ProjectRolesOnly) else None
    case ProjectCredential =>
      if op.authMethod != ScopedTokenMethod && op.authMethod != MachineMethod then Some(CredentialMethod)
      else if |op.workspaceRoles| != 0 then Some(CredentialWorkspaceRoles)
      else if op.authMethod == ScopedTokenMethod && |op.projectRoles| == 0 then Some(TokenNeedsRoles)
      else if op.authMethod == MachineMethod && |op.projectRoles| != 0 then Some(MachineHasRoles) else None
    case UnknownKind(_) => Some(UndefinedScope)
  }

  function WorkspaceScopeFault(op: Operation): Option<SemanticsFault> {
    if op.authMethod != SessionMethod then Some(SessionOnly)
    else if |op.workspaceRoles| == 0 || |op.projectRoles| != 0 then Some(WorkspaceRolesOnly) else None
  }

  datatype OperationFault =
    | UnnamedOperation | UnknownAuthMethod | UnknownScope | UnknownAssuranceLevel | UnknownRecentAuthRule
    | UnknownIdempotencyRule | UndeclaredWorkspaceRole | UndeclaredProjectRole | BadRuleName
    | BadSemantics(why: SemanticsFault)

  function OperationFaultOf(op: Operation, workspaceRoles: seq<string>, projectRoles: seq<string>)
    : Option<OperationFault>
  {
    if !ClosedName(op.id) then Some(UnnamedOperation)
    else if op.authMethod.UnknownMethod? then Some(UnknownAuthMethod)
    else if op.scope.UnknownKind? then Some(UnknownScope)
    else if op.assurance.AssuranceOmitted? || op.assurance.UnknownAssurance? then Some(UnknownAssuranceLevel)
    else if op.recentAuth.RecentOmitted? || op.recentAuth.UnknownRecent? then Some(UnknownRecentAuthRule)
    else if op.idempotency.IdempotencyOmitted? || op.idempotency.UnknownIdempotency? then Some(UnknownIdempotencyRule)
    else if exists i :: 0 <= i < |op.workspaceRoles| && op.workspaceRoles[i] !in workspaceRoles
    then Some(UndeclaredWorkspaceRole)
    else if exists i :: 0 <= i < |op.projectRoles| && op.projectRoles[i] !in projectRoles
    then Some(UndeclaredProjectRole)
    else if exists i :: 0 <= i < |op.rules| && !ClosedName(op.rules[i]) then Some(BadRuleName)
    else
      match SemanticsFaultOf(op)
      case None => None
      case Some(why) => Some(BadSemantics(why))
  }

  datatype Fault =
    | UnsupportedVersion | BadRole(role: string) | DuplicateRole(role: string) | DuplicateOperation(at: nat)
    | BadOperation(at: nat, why: OperationFault)

  ghost predicate RolesOk(names: seq<string>) {
    && (forall i :: 0 <= i < |names| ==> ClosedName(names[i]))
    && (forall i, j :: 0 <= i < j < |names| ==> names[i] != names[j])
  }

  ghost predicate OperationsOk(c: Catalog, k: nat)
    requires k <= |c.operations|
  {
    && (forall i :: 0 <= i < k ==> OperationFaultOf(c.operations[i], c.workspaceRoles, c.projectRoles).None?)
    && (forall i, j :: 0 <= i < j < k ==> c.operations[i].id != c.operations[j].id)
  }

  ghost predicate StructureOk(c: Catalog) {
    && c.version == CURRENT_VERSION && RolesOk(c.workspaceRoles) && RolesOk(c.projectRoles)
    && OperationsOk(c, |c.operations|)
  }

  /** The fault is really there, and for an operation it is the first: its name is looked at before its
      being a duplicate, and that before everything else. */
  ghost predicate FaultIsReal(c: Catalog, fault: Fault) {
    match fault
    case UnsupportedVersion => c.version != CURRENT_VERSION
    case BadRole(role) => (role in c.workspaceRoles || role in c.projectRoles) && !ClosedName(role)
    case DuplicateRole(role) => multiset(c.workspaceRoles)[role] > 1 || multiset(c.projectRoles)[role] > 1
    case DuplicateOperation(at) =>
      && at < |c.operations| && OperationsOk(c, at)
      && OperationFaultOf(c.operations[at], c.workspaceRoles, c.projectRoles) != Some(UnnamedOperation)
      && exists i :: 0 <= i < at && c.operations[i].id == c.operations[at].id
    case BadOperation(at, why) =>
      && at < |c.operations| && OperationsOk(c, at)
      && OperationFaultOf(c.operations[at], c.workspaceRoles, c.projectRoles) == Some(why)
      && (why == UnnamedOperation || forall i :: 0 <= i < at ==> c.operations[i].id != c.operations[at].id)
  }

  method ValidateRoles(names: seq<string>) returns (fault: Option<Fault>)
    ensures fault.None? <==> RolesOk(names)
    ensures fault.Some? ==>
              || (fault.value.BadRole? && fault.value.role in names && !ClosedName(fault.value.role))
              || (fault.value.DuplicateRole? && multiset(names)[fault.value.role] > 1)
  {
    var seen: set<string> := {};
    for i := 0 to |names|
      invariant seen == set j | 0 <= j < i :: names[j]
      invariant RolesOk(names[..i])
    {
      if !ClosedName(names[i]) {
        return Some(BadRole(names[i]));
      }
      if names[i] in seen {
        var j :| 0 <= j < i && names[j] == names[i];
        Ordering.TwiceCounts(names, j, i);
        return Some(DuplicateRole(names[i]));
      }
      seen := seen + {names[i]};
    }
    assert names[..|names|] == names;
    return None;
  }

  method ValidateStructure(c: Catalog) returns (fault: Option<Fault>)
    ensures fault.None? <==> StructureOk(c)
    ensures fault.Some? ==> FaultIsReal(c, fault.value)
  {
    if c.version != CURRENT_VERSION {
      return Some(UnsupportedVersion);
    }
    // The two vocabularies are visited in either order.
    var workspaceFirst: bool := *;
    fault := ValidateRoles(if workspaceFirst then c.workspaceRoles else c.projectRoles);
    if fault.Some? {
      return;
    }
    fault := ValidateRoles(if workspaceFirst then c.projectRoles else c.workspaceRoles);
    if fault.Some? {
      return;
    }
    fault := ValidateOperations(c);
  }

  /** The i-th operation, when those before it are in order and ids are theirs. */
  method ValidateOperation(c: Catalog, i: nat, ids: set<string>) returns (fault: Option<Fault>)
    requires i < |c.operations| && OperationsOk(c, i)
    requires ids == set j | 0 <= j < i :: c.operations[j].id
    ensures fault.None? ==> OperationsOk(c, i + 1)
    ensures fault.Some? ==>
              (fault.value == DuplicateOperation(i) || (fault.value.BadOperation? && fault.value.at == i))
              && FaultIsReal(c, fault.value)
  {
    var op := c.operations[i];
    var why := OperationFaultOf(op, c.workspaceRoles, c.projectRoles);
    if why == Some(UnnamedOperation) {
      return Some(BadOperation(i, why.value));
    }
    if op.id in ids {
      var j :| 0 <= j < i && c.operations[j].id == op.id;
      return Some(DuplicateOperation(i));
    }
    return if why.Some? then Some(BadOperation(i, why.value)) else None;
  }

  method ValidateOperations(c: Catalog) returns (fault: Option<Fault>)
    ensures fault.None? <==> OperationsOk(c, |c.operations|)
    ensures fault.Some? ==>
              (fault.value.DuplicateOperation? || fault.value.BadOperation?) && FaultIsReal(c, fault.value)
  {
    var ids: set<string> := {};
    for i := 0 to |c.operations|
      invariant ids == set j | 0 <= j < i :: c.operations[j].id
      invariant OperationsOk(c, i)
    {
      fault := ValidateOperation(c, i, ids);
      if fault.Some? {
        return;
      }
      ids := ids + {c.operations[i].id};
    }
    return None;
  }

  // ---- hashing ---------------------------------------------------------------

  /** The digest of the encoded normal form; the encoding and the digest are not modelled. */
  method Hash(c: Catalog, digest: Catalog -> string) returns (r: Result<string, Fault>)
    ensures HashOutcome(c, digest, r)
  {
    var n := Normalize(c);
    var fault := ValidateStructure(n);
    if fault.Some? {
      return Err(fault.value);
    }
    return Ok(digest(n));
  }

  ghost predicate HashOutcome(c: Catalog, digest: Catalog -> string, r: Result<string, Fault>) {
    exists n :: NormalForm(c, n) && (r.Ok? <==> StructureOk(n)) && (r.Ok? ==> r.value == digest(n))
  }
}
