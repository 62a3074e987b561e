/** Which operations a catalog may declare, as a table, what each reported fault means, and which catalogs
    are in order. */
module CatalogRules {
  import opened Common
  import opened Evaluator
  import opened Catalog
  import Ordering

  /** A closed name is not empty and has no blanks, tabs, line ends or stars. */
  lemma NameMeaning(name: string)
    ensures ClosedName(name) <==>
              name != "" && ' ' !in name && '\t' !in name && '\r' !in name && '\n' !in name && '*' !in name
  {
  }

  /** What was left out means none; everything else is kept. */
  lemma FilledMeaning(op: Operation)
    ensures var f := Filled(op);
            && f.assurance == (if op.assurance.AssuranceOmitted? then AssuranceNone else op.assurance)
            && f.recentAuth == (if op.recentAuth.RecentOmitted? then RecentNone else op.recentAuth)
            && f.idempotency == (if op.idempotency.IdempotencyOmitted? then IdempotencyNone else op.idempotency)
            && f.id == op.id && f.authMethod == op.authMethod && f.scope == op.scope && f.rules == op.rules
            && f.workspaceRoles == op.workspaceRoles && f.projectRoles == op.projectRoles
            && f.windowSeconds == op.windowSeconds
  {
  }

  /** The credential and the roles that go with a scope. */
  predicate ScopeAllows(op: Operation) {
    var (ws, pr) := (op.workspaceRoles != [], op.projectRoles != []);
    match op.scope
    case Platform => op.authMethod in {Unauthenticated, SessionMethod} && !ws && !pr
    case WorkspacePath => op.authMethod == SessionMethod && ws && !pr
    case ProjectGovernance => op.authMethod == SessionMethod && ws && !pr
    case ProjectPath => op.authMethod == SessionMethod && pr && !ws
    case ProjectCredential =>
      !ws && ((op.authMethod == ScopedTokenMethod && pr) || (op.authMethod == MachineMethod && !pr))
    case UnknownKind(_) => false
  }

  /** A session operation names a level, two factors only at the second one, and a window exactly if it
      asks for a recent authentication; no other operation asks for a level or for recency. */
  predicate AssuranceAllows(op: Operation) {
    if op.authMethod == SessionMethod then
      && (op.assurance == AAL1 || op.assurance == AAL2)
      && (op.recentAuth == PasswordAndMFA ==> op.assurance == AAL2)
      && (if op.recentAuth == RecentNone then op.windowSeconds == 0 else op.windowSeconds >= 1)
    else op.assurance == AssuranceNone && op.recentAuth == RecentNone
  }

  lemma SemanticsMeaning(op: Operation)
    ensures SemanticsFaultOf(op).None? <==> ScopeAllows(op) && AssuranceAllows(op)
  {
  }

  /** A reported fault is there. */
  predicate Why(op: Operation, fault: SemanticsFault) {
    match fault
    case AnonymousOutsidePlatform => op.authMethod == Unauthenticated && op.scope != Platform
    case PlatformMethod => op.scope == Platform && op.authMethod !in {Unauthenticated, SessionMethod}
    case PlatformRoles => op.scope == Platform && (op.workspaceRoles != [] || op.projectRoles != [])
    case SessionOnly => op.scope in {WorkspacePath, ProjectGovernance, ProjectPath} && op.authMethod != SessionMethod
    case WorkspaceRolesOnly =>
      op.scope in {WorkspacePath, ProjectGovernance} && (op.workspaceRoles == [] || op.projectRoles != [])
    case ProjectRolesOnly => op.scope == ProjectPath && (op.projectRoles == [] || op.workspaceRoles != [])
    case CredentialMethod => op.scope == ProjectCredential && op.authMethod !in {ScopedTokenMethod, MachineMethod}
    case CredentialWorkspaceRoles => op.scope == ProjectCredential && op.workspaceRoles != []
    case TokenNeedsRoles =>
      op.scope == ProjectCredential && op.authMethod == ScopedTokenMethod && op.projectRoles == []
    case MachineHasRoles => op.scope == ProjectCredential && op.authMethod == MachineMethod && op.projectRoles != []
    case UndefinedScope => op.scope.UnknownKind?
    case SessionAssurance => op.authMethod == SessionMethod && op.assurance !in {AAL1, AAL2}
    case MFANeedsAAL2 => op.authMethod == SessionMethod && op.recentAuth == PasswordAndMFA && op.assurance == AAL1
    case WindowForbidden => op.authMethod == SessionMethod && op.recentAuth == RecentNone && op.windowSeconds != 0
    case WindowRequired => op.authMethod == SessionMethod && op.recentAuth != RecentNone && op.windowSeconds < 1
    case AssuranceOutsideSession => op.authMethod != SessionMethod && op.assurance != AssuranceNone
    case RecentAuthOutsideSession => op.authMethod != SessionMethod && op.recentAuth != RecentNone
  }

  lemma SemanticsFaultIsTrue(op: Operation)
    ensures SemanticsFaultOf(op).Some? ==> Why(op, SemanticsFaultOf(op).value)
  {
  }

  /** Every word of the operation is one the catalog knows. */
  predicate WordsKnown(op: Operation, workspaceRoles: seq<string>, projectRoles: seq<string>) {
    && ClosedName(op.id) && op.authMethod in {Unauthenticated, SessionMethod, ScopedTokenMethod, MachineMethod}
    && op.scope in {Platform, WorkspacePath, ProjectPath, ProjectGovernance, ProjectCredential}
    && op.assurance in {AssuranceNone, AAL1, AAL2} && op.recentAuth in {RecentNone, Password, PasswordAndMFA}
    && op.idempotency in {IdempotencyNone, IdempotencyRequired}
    && (forall role :: role in op.workspaceRoles ==> role in workspaceRoles)
    && (forall role :: role in op.projectRoles ==> role in projectRoles)
    && (forall rule :: rule in op.rules ==> ClosedName(rule))
  }

  /** An operation is in order exactly if its words are known and go together. */
  lemma OperationMeaning(op: Operation, workspaceRoles: seq<string>, projectRoles: seq<string>)
    ensures OperationFaultOf(op, workspaceRoles, projectRoles).None? <==>
              WordsKnown(op, workspaceRoles, projectRoles) && ScopeAllows(op) && AssuranceAllows(op)
  {
    SemanticsMeaning(op);
  }

  lemma OperationFaultIsTrue(op: Operation, workspaceRoles: seq<string>, projectRoles: seq<string>)
    ensures match OperationFaultOf(op, workspaceRoles, projectRoles)
            case None => true
            case Some(UnnamedOperation) => !ClosedName(op.id)
            case Some(UnknownAuthMethod) => op.authMethod.UnknownMethod?
            case Some(UnknownScope) => op.scope.UnknownKind?
            case Some(UnknownAssuranceLevel) => op.assurance !in {AssuranceNone, AAL1, AAL2}
            case Some(UnknownRecentAuthRule) => op.recentAuth !in {RecentNone, Password, PasswordAndMFA}
            case Some(UnknownIdempotencyRule) => op.idempotency !in {IdempotencyNone, IdempotencyRequired}
            case Some(UndeclaredWorkspaceRole) => exists role :: role in op.workspaceRoles && role !in workspaceRoles
            case Some(UndeclaredProjectRole) => exists role :: role in op.projectRoles && role !in projectRoles
            case Some(BadRuleName) => exists rule :: rule in op.rules && !ClosedName(rule)
            case Some(BadSemantics(why)) => Why(op, why)
  {
    SemanticsFaultIsTrue(op);
  }

  /** Role names are closed, and each is listed once. */
  ghost predicate RolesInOrder(names: seq<string>) {
    (forall name :: name in names ==> ClosedName(name)) && (forall name :: multiset(names)[name] <= 1)
  }

  lemma RolesMeaning(names: seq<string>)
    ensures RolesOk(names) <==> RolesInOrder(names)
  {
    if RolesOk(names) {
      forall name ensures multiset(names)[name] <= 1 {
        AtMostOnce(names, name);
      }
    }
    if RolesInOrder(names) {
      forall i, j | 0 <= i < j < |names| ensures names[i] != names[j] {
        if names[i] == names[j] {
          Ordering.TwiceCounts(names, i, j);
        }
      }
    }
  }

  lemma {:induction false} AtMostOnce(names: seq<string>, name: string)
    requires forall i, j :: 0 <= i < j < |names| ==> names[i] != names[j]
    ensures multiset(names)[name] == if name in names then 1 else 0
  {
    if names != [] {
      var n := |names| - 1;
      assert names == names[..n] + [names[n]];
      AtMostOnce(names[..n], name);
    }
  }

  /** A catalog is in order exactly if it is of version 1, both vocabularies are, every operation is, and
      no two operations share an id. */
  lemma StructureMeaning(c: Catalog)
    ensures StructureOk(c) <==>
              && c.version == 1 && RolesInOrder(c.workspaceRoles) && RolesInOrder(c.projectRoles)
              && (forall op :: op in c.operations ==>
                    WordsKnown(op, c.workspaceRoles, c.projectRoles) && ScopeAllows(op) && AssuranceAllows(op))
              && (forall i, j :: 0 <= i < j < |c.operations| ==> c.operations[i].id != c.operations[j].id)
  {
    RolesMeaning(c.workspaceRoles);
    RolesMeaning(c.projectRoles);
    forall op | op in c.operations
      ensures OperationFaultOf(op, c.workspaceRoles, c.projectRoles).None? <==>
                WordsKnown(op, c.workspaceRoles, c.projectRoles) && ScopeAllows(op) && AssuranceAllows(op)
    {
      OperationMeaning(op, c.workspaceRoles, c.projectRoles);
    }
  }
}
