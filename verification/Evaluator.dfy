/** The staged authorization evaluator: its request, its built-in rules, its stages, and what decisions mean. */
module Evaluator {
  import opened Common

  datatype AuthMethod =
    Unauthenticated | SessionMethod | ScopedTokenMethod | MachineMethod | UnknownMethod(text: string)

  datatype ScopeKind =
    Platform | WorkspacePath | ProjectPath | ProjectGovernance | ProjectCredential | UnknownKind(text: string)

  datatype Assurance = AssuranceOmitted | AssuranceNone | AAL1 | AAL2 | UnknownAssurance(text: string)

  datatype RecentAuth = RecentOmitted | RecentNone | Password | PasswordAndMFA | UnknownRecent(text: string)

  datatype Idempotency =
    IdempotencyOmitted | IdempotencyNone | IdempotencyRequired | UnknownIdempotency(text: string)

  datatype Operation = Operation(
    id: string, authMethod: AuthMethod, scope: ScopeKind,
    workspaceRoles: seq<string>, projectRoles: seq<string>,
    assurance: Assurance, recentAuth: RecentAuth, windowSeconds: int,
    idempotency: Idempotency, rules: seq<string>)

  /** Times are nanoseconds since Go's zero time. */
  const ZERO_TIME: int := 0
  const SECOND: int := 1_000_000_000

  /** A product of two 64-bit integers, with Go's wrap-around. */
  function RecentAuthWindow(op: Operation): int {
    Wrap64(op.windowSeconds * SECOND)
  }

  datatype Principal =
    | Session(subject: string, absoluteExpiry: int, idleExpiry: int)
    | ScopedToken(subject: string, workspace: string, project: string)
    | Machine(subject: string, workspace: string, project: string, notBefore: int, expiresAt: int)

  function MethodOf(p: Principal): AuthMethod {
    match p
    case Session(_, _, _) => SessionMethod
    case ScopedToken(_, _, _) => ScopedTokenMethod
    case Machine(_, _, _, _, _) => MachineMethod
  }

  datatype Scope = PlatformScope | WorkspaceScope(ws: string) | ProjectScope(ws: string, pr: string)

  /** A scope has a workspace, or a project, exactly when the identifier is not empty. */
  function WorkspaceOf(s: Scope): string { if s.PlatformScope? then "" else s.ws }

  function ProjectOf(s: Scope): string { if s.ProjectScope? then s.pr else "" }

  datatype Facts = Facts(
    activeUser: bool, activeSession: bool, credentialGrantActive: bool,
    activeWorkspaceMembership: bool, activeProjectMembership: bool,
    workspaceRoles: seq<string>, projectRoles: seq<string>,
    assurance: Assurance, recentPasswordAt: int, recentMFAAt: int,
    idempotencyValid: bool, product: set<string>)

  datatype Stage = Authentication | ScopeStage | Membership | Role | Policy | Input | Complete

  datatype Reason =
    | Allowed | UnknownOperationOrScope | AuthMethodNotAllowed | PrincipalRequired | SessionInactive
    | CredentialInactive | AssuranceRequired | RecentAuthRequired | ScopeMismatch | PrincipalScopeMismatch
    | CredentialMembershipInactive | WorkspaceMembershipInactive | ProjectMembershipInactive
    | WorkspaceRoleNotAllowed | ProjectRoleNotAllowed | IdempotencyInvalid | RuleReason(text: string)

  datatype Outcome = Deny | Allow | Challenged

  datatype Challenge = Challenge(operation: string, assurance: Assurance, maxAge: int)

  datatype Decision = Decision(outcome: Outcome, stage: Stage, reason: Reason, challenge: Option<Challenge>)

  /** What a rule gets to see. */
  datatype Query = Query(operation: Operation, principal: Option<Principal>, scope: Scope, facts: Facts, now: int)

  datatype Rule = Rule(stage: Stage, evaluate: Query -> Option<Decision>)

  function Denied(stage: Stage, reason: Reason): Decision {
    Decision(Deny, stage, reason, None)
  }

  // ---- built-in rules ----------------------------------------------------

  function NewChallenge(op: Operation, reason: Reason): Decision {
    var required := if op.recentAuth == Password && op.assurance == AAL1 then AAL1 else AAL2;
    Decision(Challenged, Authentication, reason, Some(Challenge(op.id, required, RecentAuthWindow(op))))
  }

  function AssuranceRule(q: Query): Option<Decision> {
    if q.operation.assurance != AAL2 || q.facts.assurance == AAL2 then None
    else Some(NewChallenge(q.operation, AssuranceRequired))
  }

  /** Negating the window wraps too. */
  predicate Recent(at: int, now: int, window: int) {
    at != ZERO_TIME && at <= now && at >= now + Wrap64(-window)
  }

  function RecentAuthRule(q: Query): Option<Decision> {
    var (op, f) := (q.operation, q.facts);
    var window := RecentAuthWindow(op);
    var sufficient := match op.recentAuth
      case RecentNone => true
      case Password => Recent(f.recentPasswordAt, q.now, window)
      case PasswordAndMFA => Recent(f.recentPasswordAt, q.now, window) && Recent(f.recentMFAAt, q.now, window)
      case RecentOmitted => false
      case UnknownRecent(_) => false;
    if sufficient then None else Some(NewChallenge(op, RecentAuthRequired))
  }

  /** The first built-in rule with something to say. */
  function BuiltinRuling(q: Query): Option<Decision> {
    if AssuranceRule(q).Some? then AssuranceRule(q) else RecentAuthRule(q)
  }

  // ---- stages: None passes, Some is final ---------------------------------

  function RunProductRules(q: Query, rules: seq<Option<Rule>>, stage: Stage): Option<Decision>
    decreases |rules|
  {
    if rules == [] then None
    else if rules[0].None? || rules[0].value.stage != stage then RunProductRules(q, rules[1..], stage)
    else
      match rules[0].value.evaluate(q)
      case None => RunProductRules(q, rules[1..], stage)
      case Some(d) => if d.outcome == Allow then RunProductRules(q, rules[1..], stage) else Some(d.(stage := stage))
  }

  function EvaluateAuthentication(q: Query, rules: seq<Option<Rule>>): Option<Decision> {
    var (op, f) := (q.operation, q.facts);
    if op.authMethod == Unauthenticated then
      if q.principal.Some? then Some(Denied(Authentication, AuthMethodNotAllowed)) else None
    else if q.principal.None? then Some(Denied(Authentication, PrincipalRequired))
    else
      var p := q.principal.value;
      if MethodOf(p) != op.authMethod then Some(Denied(Authentication, AuthMethodNotAllowed))
      else if p.Session? && (!f.activeUser || !f.activeSession || p.absoluteExpiry < q.now || p.idleExpiry < q.now) then
        Some(Denied(Authentication, SessionInactive))
      else if p.Machine? && (!f.credentialGrantActive || p.notBefore > q.now
                             || (p.expiresAt != ZERO_TIME && !(p.expiresAt > q.now))) then
        Some(Denied(Authentication, CredentialInactive))
      else if BuiltinRuling(q).Some? then BuiltinRuling(q)
      else RunProductRules(q, rules, Authentication)
  }

  predicate ScopeMatches(expected: ScopeKind, scope: Scope) {
    var (workspace, project) := (WorkspaceOf(scope) != "", ProjectOf(scope) != "");
    match expected
    case Platform => !workspace && !project
    case WorkspacePath => workspace && !project
    case ProjectPath => workspace && project
    case ProjectGovernance => workspace && project
    case ProjectCredential => workspace && project
    case UnknownKind(_) => false
  }

  function EvaluateScope(q: Query, rules: seq<Option<Rule>>): Option<Decision> {
    if !ScopeMatches(q.operation.scope, q.scope) then Some(Denied(ScopeStage, ScopeMismatch))
    else if q.principal.Some? && !q.principal.value.Session?
            && (WorkspaceOf(q.scope) == "" || ProjectOf(q.scope) == ""
                || q.principal.value.workspace != WorkspaceOf(q.scope)
                   || q.principal.value.project != ProjectOf(q.scope)) then
      Some(Denied(ScopeStage, PrincipalScopeMismatch))
    else RunProductRules(q, rules, ScopeStage)
  }

  function EvaluateMembership(q: Query, rules: seq<Option<Rule>>): Option<Decision> {
    var (op, f) := (q.operation, q.facts);
    if op.authMethod == ScopedTokenMethod
       && (!f.activeUser || !f.activeWorkspaceMembership || !f.activeProjectMembership) then
      Some(Denied(Membership, CredentialMembershipInactive))
    else if (op.scope == WorkspacePath || op.scope == ProjectPath || op.scope == ProjectGovernance)
            && !f.activeWorkspaceMembership then
      Some(Denied(Membership, WorkspaceMembershipInactive))
    else if op.scope == ProjectPath && !f.activeProjectMembership then
      Some(Denied(Membership, ProjectMembershipInactive))
    else RunProductRules(q, rules, Membership)
  }

  predicate Intersects(actual: seq<string>, allowed: seq<string>) {
    exists i :: 0 <= i < |allowed| && allowed[i] in actual
  }

  predicate SharesRole(actual: seq<string>, allowed: seq<string>) {
    exists role :: role in actual && role in allowed
  }

  lemma IntersectsIsSharing(actual: seq<string>, allowed: seq<string>)
    ensures Intersects(actual, allowed) <==> SharesRole(actual, allowed)
  {
    if Intersects(actual, allowed) {
      var i :| 0 <= i < |allowed| && allowed[i] in actual;
      assert allowed[i] in allowed;
    }
    if SharesRole(actual, allowed) {
      var role :| role in actual && role in allowed;
      var i :| 0 <= i < |allowed| && allowed[i] == role;
    }
  }

  function EvaluateRole(q: Query, rules: seq<Option<Rule>>): Option<Decision> {
    var (op, f) := (q.operation, q.facts);
    if (op.scope == WorkspacePath || op.scope == ProjectGovernance)
        && !Intersects(f.workspaceRoles, op.workspaceRoles) then
      Some(Denied(Role, WorkspaceRoleNotAllowed))
    else if (op.scope == ProjectPath || (op.scope == ProjectCredential && op.authMethod == ScopedTokenMethod))
            && !Intersects(f.projectRoles, op.projectRoles) then
      Some(Denied(Role, ProjectRoleNotAllowed))
    else RunProductRules(q, rules, Role)
  }

  function EvaluateInput(q: Query, rules: seq<Option<Rule>>): Option<Decision> {
    if q.operation.idempotency == IdempotencyRequired && !q.facts.idempotencyValid then
      Some(Denied(Input, IdempotencyInvalid))
    else RunProductRules(q, rules, Input)
  }

  function EvaluateStage(q: Query, rules: seq<Option<Rule>>, stage: Stage): Option<Decision> {
    match stage
    case Authentication => EvaluateAuthentication(q, rules)
    case ScopeStage => EvaluateScope(q, rules)
    case Membership => EvaluateMembership(q, rules)
    case Role => EvaluateRole(q, rules)
    case Policy => RunProductRules(q, rules, Policy)
    case _ => EvaluateInput(q, rules)
  }

  const STAGES: seq<Stage> := [Authentication, ScopeStage, Membership, Role, Policy, Input]

  /** The first stage from the given one on that does not pass decides. */
  function EvaluateFrom(q: Query, rules: seq<Option<Rule>>, k: nat): Decision
    requires k <= |STAGES|
    decreases |STAGES| - k
  {
    if k == |STAGES| then Decision(Allow, Complete, Allowed, None)
    else
      match EvaluateStage(q, rules, STAGES[k])
      case Some(d) => d
      case None => EvaluateFrom(q, rules, k + 1)
  }

  /** A request without a time is given the clock's. */
  function At(now: int, clock: int): int { if now == ZERO_TIME then clock else now }

  function Evaluate(op: Operation, principal: Option<Principal>, scope: Option<Scope>, facts: Facts, now: int,
                    clock: int, rules: seq<Option<Rule>>): Decision
  {
    if op.id == "" || scope.None? then Denied(Policy, UnknownOperationOrScope)
    else EvaluateFrom(Query(op, principal, scope.value, facts, At(now, clock)), rules, 0)
  }

  // ---- what each stage asks for -------------------------------------------

  predicate Live(p: Principal, f: Facts, now: int) {
    match p
    case Session(_, absolute, idle) => f.activeUser && f.activeSession && now <= absolute && now <= idle
    case ScopedToken(_, _, _) => true
    case Machine(_, _, _, notBefore, expiresAt) =>
      f.credentialGrantActive && notBefore <= now && (expiresAt == ZERO_TIME || now < expiresAt)
  }

  predicate BoundTo(p: Principal, scope: Scope) {
    p.Session? || (p.workspace == WorkspaceOf(scope) != "" && p.project == ProjectOf(scope) != "")
  }

  /** The built-in requirement of a stage. */
  predicate StageHolds(q: Query, stage: Stage) {
    var (op, f) := (q.operation, q.facts);
    match stage
    case Authentication =>
      if op.authMethod == Unauthenticated then q.principal.None?
      else
        && q.principal.Some? && MethodOf(q.principal.value) == op.authMethod && Live(q.principal.value, f, q.now)
        && BuiltinRuling(q).None?
    case ScopeStage =>
      ScopeMatches(op.scope, q.scope) && (q.principal.Some? ==> BoundTo(q.principal.value, q.scope))
    case Membership =>
      && (op.authMethod == ScopedTokenMethod ==>
            f.activeUser && f.activeWorkspaceMembership && f.activeProjectMembership)
      && (op.scope in {WorkspacePath, ProjectPath, ProjectGovernance} ==> f.activeWorkspaceMembership)
      && (op.scope == ProjectPath ==> f.activeProjectMembership)
    case Role =>
      && (op.scope in {WorkspacePath, ProjectGovernance} ==> Intersects(f.workspaceRoles, op.workspaceRoles))
      && (op.scope == ProjectPath || (op.scope == ProjectCredential && op.authMethod == ScopedTokenMethod)
          ==> Intersects(f.projectRoles, op.projectRoles))
    case Input => op.idempotency == IdempotencyRequired ==> f.idempotencyValid
    case Policy => true
    case Complete => true
  }

  /** A product rule of a stage speaks against the request. Authentication-stage rules are not asked
      about anonymous operations. */
  predicate Objects(q: Query, rule: Option<Rule>, stage: Stage) {
    && rule.Some? && rule.value.stage == stage
    && !(stage == Authentication && q.operation.authMethod == Unauthenticated)
    && rule.value.evaluate(q).Some? && rule.value.evaluate(q).value.outcome != Allow
  }

  ghost predicate Unopposed(q: Query, rules: seq<Option<Rule>>, stage: Stage) {
    forall i :: 0 <= i < |rules| ==> !Objects(q, rules[i], stage)
  }

  ghost predicate StageClear(q: Query, rules: seq<Option<Rule>>, stage: Stage) {
    StageHolds(q, stage) && Unopposed(q, rules, stage)
  }

  lemma {:induction false} RulesPassUnlessOneObjects(q: Query, rules: seq<Option<Rule>>, stage: Stage)
    requires !(stage == Authentication && q.operation.authMethod == Unauthenticated)
    ensures RunProductRules(q, rules, stage).None? <==> Unopposed(q, rules, stage)
    ensures RunProductRules(q, rules, stage).Some? ==>
              var d := RunProductRules(q, rules, stage).value;
              d.outcome != Allow && d.stage == stage
    decreases |rules|
  {
    if rules != [] {
      RulesPassUnlessOneObjects(q, rules[1..], stage);
      assert forall i :: 0 <= i < |rules| - 1 ==> rules[1..][i] == rules[i + 1];
      if !Objects(q, rules[0], stage) && Unopposed(q, rules[1..], stage) {
        forall i | 0 <= i < |rules| ensures !Objects(q, rules[i], stage) {
          if i > 0 {
            assert rules[i] == rules[1..][i - 1];
          }
        }
      }
    }
  }

  lemma StagePassesIffClear(q: Query, rules: seq<Option<Rule>>, stage: Stage)
    requires stage != Complete
    ensures EvaluateStage(q, rules, stage).None? <==> StageClear(q, rules, stage)
    ensures EvaluateStage(q, rules, stage).Some? ==>
              var d := EvaluateStage(q, rules, stage).value;
              d.outcome != Allow && d.stage == stage
  {
    if stage == Authentication && q.operation.authMethod == Unauthenticated {
      assert Unopposed(q, rules, stage);
    } else {
      RulesPassUnlessOneObjects(q, rules, stage);
    }
  }

  ghost predicate FirstUnclear(q: Query, rules: seq<Option<Rule>>, from: nat, stage: Stage) {
    exists i ::
      && from <= i < |STAGES| && STAGES[i] == stage && !StageClear(q, rules, STAGES[i])
      && (forall j :: from <= j < i ==> StageClear(q, rules, STAGES[j]))
  }

  /** Every one of these rules is also one of those. */
  ghost predicate Among(rules: seq<Option<Rule>>, more: seq<Option<Rule>>) {
    forall i :: 0 <= i < |rules| ==> exists j :: 0 <= j < |more| && rules[i] == more[j]
  }

  lemma ClearStagesComeBefore(q: Query, rules: seq<Option<Rule>>, k: nat, stage: Stage)
    requires k < |STAGES| && StageClear(q, rules, STAGES[k]) && FirstUnclear(q, rules, k + 1, stage)
    ensures FirstUnclear(q, rules, k, stage)
  {
  }

  lemma {:induction false} DecidedByFirstUnclear(q: Query, rules: seq<Option<Rule>>, k: nat)
    requires k <= |STAGES|
    ensures var d := EvaluateFrom(q, rules, k);
            && (d.outcome == Allow <==> forall i :: k <= i < |STAGES| ==> StageClear(q, rules, STAGES[i]))
            && (d.outcome == Allow ==> d == Decision(Allow, Complete, Allowed, None))
            && (d.outcome != Allow ==> FirstUnclear(q, rules, k, d.stage))
    decreases |STAGES| - k
  {
    if k < |STAGES| {
      StagePassesIffClear(q, rules, STAGES[k]);
      DecidedByFirstUnclear(q, rules, k + 1);
      var d := EvaluateFrom(q, rules, k + 1);
      if StageClear(q, rules, STAGES[k]) && d.outcome != Allow {
        ClearStagesComeBefore(q, rules, k, d.stage);
      }
    }
  }

  /** Allowed exactly when every stage's requirement holds and no product rule objects; otherwise the
      decision names the first stage for which that fails. */
  lemma AllowedIffEveryStageClear(op: Operation, principal: Option<Principal>, scope: Scope, facts: Facts, now: int,
                                  clock: int, rules: seq<Option<Rule>>)
    requires op.id != ""
    ensures var d := Evaluate(op, principal, Some(scope), facts, now, clock, rules);
            var q := Query(op, principal, scope, facts, At(now, clock));
            && (d.outcome == Allow <==> forall i :: 0 <= i < |STAGES| ==> StageClear(q, rules, STAGES[i]))
            && (d.outcome != Allow ==> FirstUnclear(q, rules, 0, d.stage))
  {
    DecidedByFirstUnclear(Query(op, principal, scope, facts, At(now, clock)), rules, 0);
  }

  /** Adding product rules, anywhere, in any order, never turns a refusal into an allowance. */
  lemma MoreRulesNeverAllow(op: Operation, principal: Option<Principal>, scope: Option<Scope>, facts: Facts, now: int,
                            clock: int, rules: seq<Option<Rule>>, more: seq<Option<Rule>>)
    requires Among(rules, more)
    requires Evaluate(op, principal, scope, facts, now, clock, rules).outcome != Allow
    ensures Evaluate(op, principal, scope, facts, now, clock, more).outcome != Allow
  {
    if op.id != "" && scope.Some? {
      AllowedIffEveryStageClear(op, principal, scope.value, facts, now, clock, rules);
      AllowedIffEveryStageClear(op, principal, scope.value, facts, now, clock, more);
      var q := Query(op, principal, scope.value, facts, At(now, clock));
      var i :| 0 <= i < |STAGES| && !StageClear(q, rules, STAGES[i]);
      StillOpposed(q, rules, more, STAGES[i]);
    }
  }

  lemma StillOpposed(q: Query, rules: seq<Option<Rule>>, more: seq<Option<Rule>>, stage: Stage)
    requires Among(rules, more)
    requires !StageClear(q, rules, stage)
    ensures !StageClear(q, more, stage)
  {
    if !Unopposed(q, rules, stage) {
      var i :| 0 <= i < |rules| && Objects(q, rules[i], stage);
      var j :| 0 <= j < |more| && rules[i] == more[j];
      assert Objects(q, more[j], stage);
    }
  }
}
