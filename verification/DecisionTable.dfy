/** The evaluator's built-in refusals as one table in the fields of the request, and that without product
    rules the table decides. */
module DecisionTable {
  import opened Common
  import opened Evaluator

  // ---- the conditions ----------------------------------------------------------

  predicate RightKind(op: Operation, p: Principal) {
    match op.authMethod
    case SessionMethod => p.Session?
    case ScopedTokenMethod => p.ScopedToken?
    case MachineMethod => p.Machine?
    case _ => false
  }

  predicate SessionIsLive(p: Principal, f: Facts, now: int) {
    p.Session? ==> f.activeUser && f.activeSession && now <= p.absoluteExpiry && now <= p.idleExpiry
  }

  predicate MachineIsLive(p: Principal, f: Facts, now: int) {
    p.Machine? ==> f.credentialGrantActive && p.notBefore <= now && (p.expiresAt == 0 || now < p.expiresAt)
  }

  /** Authenticated, not in the future, and not before the window's start as Go computes it. */
  predicate InWindow(at: int, now: int, seconds: int) {
    at != 0 && now + Wrap64(-Wrap64(seconds * 1_000_000_000)) <= at <= now
  }

  predicate RecentEnough(op: Operation, f: Facts, now: int) {
    || op.recentAuth == RecentNone
    || (op.recentAuth == Password && InWindow(f.recentPasswordAt, now, op.windowSeconds))
    || (op.recentAuth == PasswordAndMFA && InWindow(f.recentPasswordAt, now, op.windowSeconds)
        && InWindow(f.recentMFAAt, now, op.windowSeconds))
  }

  predicate ScopeFits(op: Operation, scope: Scope) {
    var (ws, pr) := (!scope.PlatformScope? && scope.ws != "", scope.ProjectScope? && scope.pr != "");
    || (op.scope == Platform && !ws && !pr)
    || (op.scope == WorkspacePath && ws && !pr)
    || (op.scope in {ProjectPath, ProjectGovernance, ProjectCredential} && ws && pr)
  }

  /** A token or a machine is good for its own project only. */
  predicate GoodFor(p: Principal, scope: Scope) {
    p.Session?
    || (scope.ProjectScope? && scope.ws != "" && scope.pr != "" && p.workspace == scope.ws && p.project == scope.pr)
  }

  // ---- the table ------------------------------------------------------------------

  /** The first built-in ground against a request, with its stage; None if there is none. */
  function Ground(q: Query): Option<(Stage, Outcome, Reason)> {
    var (op, f) := (q.operation, q.facts);
    if op.authMethod == Unauthenticated && q.principal.Some? then Some((Authentication, Deny, AuthMethodNotAllowed))
    else if op.authMethod != Unauthenticated && q.principal.None? then Some((Authentication, Deny, PrincipalRequired))
    else if q.principal.Some? && !RightKind(op, q.principal.value) then
      Some((Authentication, Deny, AuthMethodNotAllowed))
    else if q.principal.Some? && !SessionIsLive(q.principal.value, f, q.now) then
      Some((Authentication, Deny, SessionInactive))
    else if q.principal.Some? && !MachineIsLive(q.principal.value, f, q.now) then
      Some((Authentication, Deny, CredentialInactive))
    else if q.principal.Some? && op.assurance == AAL2 && f.assurance != AAL2 then
      Some((Authentication, Challenged, AssuranceRequired))
    else if q.principal.Some? && !RecentEnough(op, f, q.now) then Some((Authentication, Challenged, RecentAuthRequired))
    else if !ScopeFits(op, q.scope) then Some((ScopeStage, Deny, ScopeMismatch))
    else if q.principal.Some? && !GoodFor(q.principal.value, q.scope) then
      Some((ScopeStage, Deny, PrincipalScopeMismatch))
    else if op.authMethod == ScopedTokenMethod
            && !(f.activeUser && f.activeWorkspaceMembership && f.activeProjectMembership) then
      Some((Membership, Deny, CredentialMembershipInactive))
    else if op.scope in {WorkspacePath, ProjectPath, ProjectGovernance} && !f.activeWorkspaceMembership then
      Some((Membership, Deny, WorkspaceMembershipInactive))
    else if op.scope == ProjectPath && !f.activeProjectMembership then
      Some((Membership, Deny, ProjectMembershipInactive))
    else if op.scope in {WorkspacePath, ProjectGovernance} && !SharesRole(f.workspaceRoles, op.workspaceRoles) then
      Some((Role, Deny, WorkspaceRoleNotAllowed))
    else if (op.scope == ProjectPath || (op.scope == ProjectCredential && op.authMethod == ScopedTokenMethod))
            && !SharesRole(f.projectRoles, op.projectRoles) then
      Some((Role, Deny, ProjectRoleNotAllowed))
    else if op.idempotency == IdempotencyRequired && !f.idempotencyValid then Some((Input, Deny, IdempotencyInvalid))
    else None
  }

  function StageNumber(stage: Stage): nat {
    match stage
    case Authentication => 0
    case ScopeStage => 1
    case Membership => 2
    case Role => 3
    case Policy => 4
    case Input => 5
    case Complete => 6
  }

  /** The stage where the first ground arises says exactly that, before any product rule is asked; the
      stages before it say nothing of their own. */
  ghost predicate SaysGround(q: Query, stage: Stage) {
    match Ground(q)
    case Some((at, outcome, reason)) =>
      if StageNumber(at) < StageNumber(stage) then true
      else if at == stage then
        var d := EvaluateStage(q, [], stage);
        d.Some? && d.value.outcome == outcome && d.value.stage == stage && d.value.reason == reason
      else EvaluateStage(q, [], stage).None?
    case None => EvaluateStage(q, [], stage).None?
  }

  /** A credential of the right kind that is still good. */
  predicate Accepted(op: Operation, p: Principal, f: Facts, now: int) {
    RightKind(op, p) && SessionIsLive(p, f, now) && MachineIsLive(p, f, now)
  }

  lemma CredentialGrounds(q: Query)
    requires q.principal.Some? && !Accepted(q.operation, q.principal.value, q.facts, q.now)
    ensures SaysGround(q, Authentication)
  {
  }

  lemma BuiltinGrounds(q: Query)
    requires q.principal.Some? && Accepted(q.operation, q.principal.value, q.facts, q.now)
    ensures SaysGround(q, Authentication)
  {
  }

  lemma AuthenticationGrounds(q: Query)
    ensures SaysGround(q, Authentication)
  {
    if q.principal.Some? {
      if Accepted(q.operation, q.principal.value, q.facts, q.now) {
        BuiltinGrounds(q);
      } else {
        CredentialGrounds(q);
      }
    }
  }

  lemma ScopeGrounds(q: Query)
    ensures SaysGround(q, ScopeStage)
  {
  }

  lemma MembershipGrounds(q: Query)
    ensures SaysGround(q, Membership)
  {
  }

  lemma RoleGrounds(q: Query)
    ensures SaysGround(q, Role)
  {
    IntersectsIsSharing(q.facts.workspaceRoles, q.operation.workspaceRoles);
    IntersectsIsSharing(q.facts.projectRoles, q.operation.projectRoles);
  }

  lemma PolicyGrounds(q: Query)
    ensures SaysGround(q, Policy)
  {
  }

  lemma InputGrounds(q: Query)
    ensures SaysGround(q, Input)
  {
  }

  lemma StageGrounds(q: Query, stage: Stage)
    requires stage != Complete
    ensures SaysGround(q, stage)
  {
    match stage
    case Authentication => AuthenticationGrounds(q);
    case ScopeStage => ScopeGrounds(q);
    case Membership => MembershipGrounds(q);
    case Role => RoleGrounds(q);
    case Policy => PolicyGrounds(q);
    case Input => InputGrounds(q);
    case Complete => assert false;
  }

  lemma {:induction false} FirstGroundDecides(q: Query, k: nat)
    requires k <= |STAGES| && (Ground(q).Some? ==> k <= StageNumber(Ground(q).value.0))
    ensures var d := EvaluateFrom(q, [], k);
            match Ground(q)
            case None => d == Decision(Allow, Complete, Allowed, None)
            case Some((stage, outcome, reason)) => d.stage == stage && d.outcome == outcome && d.reason == reason
    decreases |STAGES| - k
  {
    if k < |STAGES| {
      assert StageNumber(STAGES[k]) == k;
      StageGrounds(q, STAGES[k]);
      if EvaluateStage(q, [], STAGES[k]).None? {
        FirstGroundDecides(q, k + 1);
      }
    }
  }

  /** Without product rules the decision is the table's first ground, and allowance if there is none; an
      unknown operation, or a request without a scope, is refused; a request without a time is judged
      by the clock. */
  lemma DecisionIsTheTable(op: Operation, principal: Option<Principal>, scope: Option<Scope>, facts: Facts, now: int,
                           clock: int)
    ensures var d := Evaluate(op, principal, scope, facts, now, clock, []);
            if op.id == "" || scope.None? then d == Decision(Deny, Policy, UnknownOperationOrScope, None)
            else
              match Ground(Query(op, principal, scope.value, facts, if now == 0 then clock else now))
              case None => d == Decision(Allow, Complete, Allowed, None)
              case Some((stage, outcome, reason)) => d.stage == stage && d.outcome == outcome && d.reason == reason
  {
    if op.id != "" && scope.Some? {
      FirstGroundDecides(Query(op, principal, scope.value, facts, if now == 0 then clock else now), 0);
    }
  }
}
