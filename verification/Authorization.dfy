/** Evaluating against a validated catalog: what an allowance guarantees, and what the built-in
    challenges ask for. */
module Authorization {
  import opened Common
  import opened Evaluator
  import opened Permutations
  import opened Catalog
  import CatalogOrder

  // ---- what an operation declares -------------------------------------------

  /** An operation as validation leaves it, except that fields may still be left out. */
  ghost predicate WellFormed(op: Operation) {
    && op.id != "" && !op.authMethod.UnknownMethod? && !op.scope.UnknownKind?
    && !op.assurance.UnknownAssurance? && !op.recentAuth.UnknownRecent? && !op.idempotency.UnknownIdempotency?
    && SemanticsFaultOf(Filled(op)).None?
  }

  /** Within a window of so many seconds, in exact arithmetic. */
  predicate Within(at: int, now: int, seconds: int) {
    at != ZERO_TIME && at <= now && now - at <= seconds * SECOND
  }

  /** The caller meets everything the operation declares; said without reference to stages. */
  ghost predicate Entitled(q: Query) {
    var (op, f) := (q.operation, q.facts);
    && (op.authMethod == Unauthenticated <==> q.principal.None?)
    && (q.principal.Some? ==>
          MethodOf(q.principal.value) == op.authMethod && Live(q.principal.value, f, q.now)
          && BoundTo(q.principal.value, q.scope))
    && (op.scope == Platform <==> WorkspaceOf(q.scope) == "")
    && (op.scope in {ProjectPath, ProjectGovernance, ProjectCredential} <==> ProjectOf(q.scope) != "")
    && (op.authMethod == ScopedTokenMethod ==> f.activeUser)
    && (op.scope in {WorkspacePath, ProjectPath, ProjectGovernance} || op.authMethod == ScopedTokenMethod ==>
          f.activeWorkspaceMembership)
    && (op.scope == ProjectPath || op.authMethod == ScopedTokenMethod ==> f.activeProjectMembership)
    && (op.workspaceRoles != [] ==> SharesRole(f.workspaceRoles, op.workspaceRoles))
    && (op.projectRoles != [] ==> SharesRole(f.projectRoles, op.projectRoles))
    && (op.assurance == AAL2 ==> f.assurance == AAL2)
    && (op.recentAuth in {Password, PasswordAndMFA} ==> Within(f.recentPasswordAt, q.now, op.windowSeconds))
    && (op.recentAuth == PasswordAndMFA ==> Within(f.recentMFAAt, q.now, op.windowSeconds))
    && (op.idempotency == IdempotencyRequired ==> f.idempotencyValid)
  }

  lemma WrapNeverGrows(x: int)
    requires x >= 0
    ensures Wrap64(x) <= x
    ensures Wrap64(x) == INT64_MIN ==> x >= 0x8000_0000_0000_0000
  {
  }

  /** However the window's nanoseconds wrap, nothing older than the declared window counts as recent. */
  lemma WindowNeverWidens(at: int, now: int, seconds: int)
    requires seconds > 0
    ensures Recent(at, now, Wrap64(seconds * SECOND)) ==> Within(at, now, seconds)
  {
    WrapNeverGrows(seconds * SECOND);
  }

  lemma WindowIsExact(at: int, now: int, seconds: int)
    requires 0 < seconds * SECOND <= INT64_MAX
    ensures Recent(at, now, Wrap64(seconds * SECOND)) <==> Within(at, now, seconds)
  {
  }

  ghost predicate StagesHold(q: Query) {
    && StageHolds(q, Authentication) && StageHolds(q, ScopeStage) && StageHolds(q, Membership)
    && StageHolds(q, Role) && StageHolds(q, Input)
  }

  lemma RolesAsDeclared(q: Query)
    requires WellFormed(q.operation)
    ensures StageHolds(q, Role) <==>
              && (q.operation.workspaceRoles != [] ==> SharesRole(q.facts.workspaceRoles, q.operation.workspaceRoles))
              && (q.operation.projectRoles != [] ==> SharesRole(q.facts.projectRoles, q.operation.projectRoles))
  {
    IntersectsIsSharing(q.facts.workspaceRoles, q.operation.workspaceRoles);
    IntersectsIsSharing(q.facts.projectRoles, q.operation.projectRoles);
  }

  /** The built-in rules pass only if the declared assurance and recency hold. */
  lemma BuiltinsMeanDeclared(q: Query)
    requires WellFormed(q.operation) && BuiltinRuling(q).None?
    ensures q.operation.assurance == AAL2 ==> q.facts.assurance == AAL2
    ensures q.operation.recentAuth in {Password, PasswordAndMFA} ==>
              Within(q.facts.recentPasswordAt, q.now, q.operation.windowSeconds)
    ensures q.operation.recentAuth == PasswordAndMFA ==>
              Within(q.facts.recentMFAAt, q.now, q.operation.windowSeconds)
  {
    if q.operation.recentAuth in {Password, PasswordAndMFA} {
      WindowNeverWidens(q.facts.recentPasswordAt, q.now, q.operation.windowSeconds);
      if q.operation.recentAuth == PasswordAndMFA {
        WindowNeverWidens(q.facts.recentMFAAt, q.now, q.operation.windowSeconds);
      }
    }
  }

  /** And, as long as nothing is left out and the window does not wrap, if. */
  lemma DeclaredMeansBuiltins(q: Query)
    requires WellFormed(q.operation) && !q.operation.recentAuth.RecentOmitted?
    requires q.operation.windowSeconds * SECOND <= INT64_MAX
    requires q.operation.assurance == AAL2 ==> q.facts.assurance == AAL2
    requires q.operation.recentAuth in {Password, PasswordAndMFA} ==>
               Within(q.facts.recentPasswordAt, q.now, q.operation.windowSeconds)
    requires q.operation.recentAuth == PasswordAndMFA ==>
               Within(q.facts.recentMFAAt, q.now, q.operation.windowSeconds)
    ensures BuiltinRuling(q).None?
  {
    if q.operation.recentAuth in {Password, PasswordAndMFA} {
      WindowIsExact(q.facts.recentPasswordAt, q.now, q.operation.windowSeconds);
      WindowIsExact(q.facts.recentMFAAt, q.now, q.operation.windowSeconds);
    }
  }

  lemma StagesMeanEntitled(q: Query)
    requires WellFormed(q.operation) && StagesHold(q)
    ensures Entitled(q)
  {
    RolesAsDeclared(q);
    if q.operation.authMethod != Unauthenticated {
      BuiltinsMeanDeclared(q);
    }
  }

  lemma EntitledMeansStages(q: Query)
    requires WellFormed(q.operation) && Entitled(q)
    requires !q.operation.recentAuth.RecentOmitted? || q.operation.authMethod == Unauthenticated
    requires q.operation.windowSeconds * SECOND <= INT64_MAX
    ensures StagesHold(q)
  {
    RolesAsDeclared(q);
    if q.operation.authMethod != Unauthenticated {
      DeclaredMeansBuiltins(q);
    }
  }

  /** Allowance implies everything the operation declares, whatever the product rules are. */
  lemma AllowMeansEntitled(op: Operation, principal: Option<Principal>, scope: Option<Scope>, facts: Facts, now: int,
                           clock: int, rules: seq<Option<Rule>>)
    requires WellFormed(op)
    requires Evaluate(op, principal, scope, facts, now, clock, rules).outcome == Allow
    ensures scope.Some? && Entitled(Query(op, principal, scope.value, facts, At(now, clock)))
  {
    var q := Query(op, principal, scope.value, facts, At(now, clock));
    AllowedIffEveryStageClear(op, principal, scope.value, facts, now, clock, rules);
    assert forall i :: 0 <= i < |STAGES| ==> StageHolds(q, STAGES[i]);
    assert STAGES[0] == Authentication && STAGES[1] == ScopeStage && STAGES[2] == Membership
        && STAGES[3] == Role && STAGES[5] == Input;
    StagesMeanEntitled(q);
  }

  ghost predicate NobodyObjects(q: Query, rules: seq<Option<Rule>>) {
    forall i :: 0 <= i < |STAGES| ==> Unopposed(q, rules, STAGES[i])
  }

  /** With recent_auth spelled out and a window that fits, allowance is entitlement plus the
      consent of the product rules, in both directions. */
  lemma AllowIffEntitled(op: Operation, principal: Option<Principal>, scope: Scope, facts: Facts, now: int,
                         clock: int, rules: seq<Option<Rule>>)
    requires WellFormed(op) && op.windowSeconds * SECOND <= INT64_MAX
    requires !op.recentAuth.RecentOmitted? || op.authMethod == Unauthenticated
    ensures var q := Query(op, principal, scope, facts, At(now, clock));
            Evaluate(op, principal, Some(scope), facts, now, clock, rules).outcome == Allow
            <==> Entitled(q) && NobodyObjects(q, rules)
  {
    var q := Query(op, principal, scope, facts, At(now, clock));
    AllowedIffEveryStageClear(op, principal, scope, facts, now, clock, rules);
    if Evaluate(op, principal, Some(scope), facts, now, clock, rules).outcome == Allow {
      AllowMeansEntitled(op, principal, Some(scope), facts, now, clock, rules);
    }
    if Entitled(q) && NobodyObjects(q, rules) {
      EntitledMeansStages(q);
    }
  }

  // ---- challenges ------------------------------------------------------------

  /** Outside sessions the built-in rules speak exactly when recent_auth was left out, which
      validation takes for none and the rule does not. */
  lemma NonSessionChallengedIffOmitted(q: Query)
    requires WellFormed(q.operation) && q.operation.authMethod != SessionMethod
    ensures BuiltinRuling(q).Some? <==> q.operation.recentAuth.RecentOmitted?
  {
  }

  /** So with the field left out nobody who must sign in is ever allowed. */
  lemma OmittedRecentAuthShutsOut(op: Operation, principal: Option<Principal>, scope: Option<Scope>, facts: Facts,
                                  now: int, clock: int, rules: seq<Option<Rule>>)
    requires op.recentAuth.RecentOmitted? && op.authMethod != Unauthenticated
    ensures Evaluate(op, principal, scope, facts, now, clock, rules).outcome != Allow
  {
    if scope.Some? && op.id != "" {
      AllowedIffEveryStageClear(op, principal, scope.value, facts, now, clock, rules);
      assert STAGES[0] == Authentication;
      assert !StageHolds(Query(op, principal, scope.value, facts, At(now, clock)), STAGES[0]);
    }
  }

  /** A built-in challenge asks for the operation's own assurance, for its own window. */
  lemma ChallengeAsksForDeclared(q: Query)
    requires WellFormed(q.operation) && !q.operation.recentAuth.RecentOmitted? && BuiltinRuling(q).Some?
    ensures BuiltinRuling(q).value.outcome == Challenged
    ensures BuiltinRuling(q).value.challenge
            == Some(Challenge(q.operation.id, q.operation.assurance, Wrap64(q.operation.windowSeconds * SECOND)))
    ensures q.operation.authMethod == SessionMethod
  {
  }

  /** Signing in again just now satisfies the challenge exactly when the window has not wrapped to a
      negative one; otherwise nothing does. */
  lemma ChallengeCanBeMet(q: Query)
    requires WellFormed(q.operation) && q.operation.recentAuth in {Password, PasswordAndMFA} && q.now != ZERO_TIME
    ensures var window := Wrap64(q.operation.windowSeconds * SECOND);
            (exists facts :: BuiltinRuling(q.(facts := facts)).None?) <==> window >= 0 || window == INT64_MIN
  {
    var window := Wrap64(q.operation.windowSeconds * SECOND);
    if window >= 0 || window == INT64_MIN {
      var today := q.facts.(assurance := AAL2, recentPasswordAt := q.now, recentMFAAt := q.now);
      assert Recent(q.now, q.now, window);
      assert BuiltinRuling(q.(facts := today)).None?;
    }
  }

  // ---- the registry and the composed call -------------------------------------

  datatype Registry = Registry(rules: map<string, Rule>, facts: set<string>)

  predicate IsBuiltin(name: string) { name == "assurance" || name == "recent_auth" }

  datatype AuthError =
    FactsUnavailable | UnregisteredFact | BuiltinReferenced(name: string) | NotRegistered(name: string)

  function Resolve(reg: Registry, names: seq<string>): Result<seq<Option<Rule>>, AuthError>
    decreases |names|
  {
    if names == [] then Ok([])
    else if IsBuiltin(names[0]) then Err(BuiltinReferenced(names[0]))
    else if names[0] !in reg.rules then Err(NotRegistered(names[0]))
    else
      match Resolve(reg, names[1..])
      case Err(e) => Err(e)
      case Ok(rest) => Ok([Some(reg.rules[names[0]])] + rest)
  }

  function FindOperation(ops: seq<Operation>, id: string): Option<Operation>
    decreases |ops|
  {
    if ops == [] then None else if ops[0].id == id then Some(ops[0]) else FindOperation(ops[1..], id)
  }

  /** The facts provider's answer is a parameter. */
  function Authorize(c: Catalog, reg: Registry, id: string, principal: Option<Principal>, scope: Option<Scope>,
                     now: int, clock: int, loaded: Option<Facts>): Result<Decision, AuthError>
  {
    match FindOperation(c.operations, id)
    case None => Ok(Denied(Policy, UnknownOperationOrScope))
    case Some(op) =>
      if loaded.None? then Err(FactsUnavailable)
      else if !(loaded.value.product <= reg.facts) then Err(UnregisteredFact)
      else
        match Resolve(reg, op.rules)
        case Err(e) => Err(e)
        case Ok(rules) => Ok(Evaluate(op, principal, scope, loaded.value, now, clock, rules))
  }

  ghost predicate RulesClosed(reg: Registry, ops: seq<Operation>) {
    forall i :: 0 <= i < |ops| ==> NamesClosed(reg, ops[i].rules)
  }

  predicate NamesClosed(reg: Registry, names: seq<string>) {
    forall j :: 0 <= j < |names| ==> !IsBuiltin(names[j]) && names[j] in reg.rules
  }

  /** The error is about the first name that cannot be referred to, and says why it cannot. */
  ghost predicate FirstRefused(reg: Registry, names: seq<string>, j: nat, error: AuthError) {
    && j < |names| && NamesClosed(reg, names[..j])
    && if names[j] in {"assurance", "recent_auth"} then error == BuiltinReferenced(names[j])
       else names[j] !in reg.rules && error == NotRegistered(names[j])
  }

  method ValidateRuleClosure(reg: Registry, ops: seq<Operation>) returns (error: Option<AuthError>)
    ensures error.None? <==> RulesClosed(reg, ops)
    ensures error.Some? ==>
              exists i, j ::
                0 <= i < |ops| && RulesClosed(reg, ops[..i]) && FirstRefused(reg, ops[i].rules, j, error.value)
  {
    for i := 0 to |ops|
      invariant RulesClosed(reg, ops[..i])
    {
      var names := ops[i].rules;
      for j := 0 to |names|
        invariant NamesClosed(reg, names[..j])
      {
        if IsBuiltin(names[j]) {
          assert FirstRefused(reg, names, j, BuiltinReferenced(names[j]));
          return Some(BuiltinReferenced(names[j]));
        }
        if names[j] !in reg.rules {
          assert FirstRefused(reg, names, j, NotRegistered(names[j]));
          return Some(NotRegistered(names[j]));
        }
      }
      assert names[..|names|] == names;
    }
    assert ops[..|ops|] == ops;
    return None;
  }

  ghost predicate Passes(c: Catalog, reg: Registry) {
    exists n :: NormalForm(c, n) && StructureOk(n) && RulesClosed(reg, n.operations)
  }

  /** Whichever normal form the sort happens to produce, the verdict is the catalog's. */
  lemma VerdictIsTheCatalogs(c: Catalog, n: Catalog, reg: Registry)
    requires NormalForm(c, n) && Passes(c, reg)
    ensures StructureOk(n) && RulesClosed(reg, n.operations)
  {
    var m :| NormalForm(c, m) && StructureOk(m) && RulesClosed(reg, m.operations);
    CatalogOrder.ValidNormalFormIsUnique(c, c, m, n);
  }

  method Validate(c: Catalog, reg: Registry) returns (ok: bool)
    ensures ok <==> Passes(c, reg)
  {
    var n := Normalize(c);
    var fault := ValidateStructure(n);
    var error := ValidateRuleClosure(reg, n.operations);
    ok := fault.None? && error.None?;
    if Passes(c, reg) {
      VerdictIsTheCatalogs(c, n, reg);
    }
  }

  lemma {:induction false} FoundIsMember(ops: seq<Operation>, id: string)
    requires FindOperation(ops, id).Some?
    ensures FindOperation(ops, id).value in ops && FindOperation(ops, id).value.id == id
    decreases |ops|
  {
    if ops[0].id != id {
      FoundIsMember(ops[1..], id);
    }
  }

  lemma FaultLooksAtFewFields(x: Operation, y: Operation)
    requires x.authMethod == y.authMethod && x.scope == y.scope && x.assurance == y.assurance
    requires x.recentAuth == y.recentAuth && x.windowSeconds == y.windowSeconds
    requires |x.workspaceRoles| == |y.workspaceRoles| && |x.projectRoles| == |y.projectRoles|
    ensures SemanticsFaultOf(x) == SemanticsFaultOf(y)
  {
    assert ScopeFault(x) == ScopeFault(y);
  }

  lemma NormalFormKeepsMeaning(op: Operation)
    ensures SemanticsFaultOf(NormalOperation(op)) == SemanticsFaultOf(Filled(op))
  {
    SortedNamesSorts(op.workspaceRoles);
    SortedNamesSorts(op.projectRoles);
    FaultLooksAtFewFields(NormalOperation(op), Filled(op));
  }

  lemma PassingNormalOperation(c: Catalog, reg: Registry, op: Operation) returns (n: Catalog)
    requires Passes(c, reg) && op in c.operations
    ensures OperationFaultOf(NormalOperation(op), n.workspaceRoles, n.projectRoles).None?
    ensures NamesClosed(reg, NormalOperation(op).rules)
  {
    n :| NormalForm(c, n) && StructureOk(n) && RulesClosed(reg, n.operations);
    var k :| 0 <= k < |c.operations| && c.operations[k] == op;
    assert Mapped(c.operations, NormalOperation)[k] == NormalOperation(op);
    assert NormalOperation(op) in multiset(n.operations);
    var i :| 0 <= i < |n.operations| && n.operations[i] == NormalOperation(op);
  }

  lemma SortingKeepsClosure(reg: Registry, names: seq<string>)
    requires NamesClosed(reg, SortedNames(names))
    ensures NamesClosed(reg, names)
  {
    SortedNamesSorts(names);
    forall j | 0 <= j < |names| ensures !IsBuiltin(names[j]) && names[j] in reg.rules {
      assert names[j] in multiset(SortedNames(names));
      var l :| 0 <= l < |SortedNames(names)| && SortedNames(names)[l] == names[j];
    }
  }

  /** Every operation of a catalog that passes is well formed and refers to registered rules only,
      as written, before normalization. */
  lemma PassingOperations(c: Catalog, reg: Registry, op: Operation)
    requires Passes(c, reg) && op in c.operations
    ensures WellFormed(op) && NamesClosed(reg, op.rules)
  {
    var n := PassingNormalOperation(c, reg, op);
    NormalFormKeepsMeaning(op);
    SortingKeepsClosure(reg, op.rules);
  }

  /** Validation cannot tell a field left out from its default, though the evaluator can. */
  lemma ValidationIgnoresOmissions(c: Catalog, reg: Registry)
    ensures Passes(c, reg) <==> Passes(c.(operations := Mapped(c.operations, Filled)), reg)
  {
    var filled := c.(operations := Mapped(c.operations, Filled));
    assert Mapped(filled.operations, NormalOperation) == Mapped(c.operations, NormalOperation);
    assert forall n :: NormalForm(c, n) <==> NormalForm(filled, n);
  }

  /** An allowance against a catalog that passed validation is for one of its operations, and the
      caller meets everything that operation declares. */
  lemma AuthorizeIsSound(c: Catalog, reg: Registry, id: string, principal: Option<Principal>, scope: Option<Scope>,
                         now: int, clock: int, loaded: Option<Facts>)
    requires Passes(c, reg)
    requires var r := Authorize(c, reg, id, principal, scope, now, clock, loaded); r.Ok? && r.value.outcome == Allow
    ensures exists op :: op in c.operations && op.id == id && scope.Some? && loaded.Some?
                         && Entitled(Query(op, principal, scope.value, loaded.value, At(now, clock)))
  {
    var op := FindOperation(c.operations, id).value;
    FoundIsMember(c.operations, id);
    PassingOperations(c, reg, op);
    AllowMeansEntitled(op, principal, scope, loaded.value, now, clock, Resolve(reg, op.rules).value);
  }

  lemma {:induction false} ResolveSucceeds(reg: Registry, names: seq<string>)
    ensures Resolve(reg, names).Ok? <==> NamesClosed(reg, names)
    decreases |names|
  {
    if names != [] {
      ResolveSucceeds(reg, names[1..]);
      assert forall j :: 0 <= j < |names| - 1 ==> names[1..][j] == names[j + 1];
      if Resolve(reg, names).Ok? {
        forall j | 0 <= j < |names| ensures !IsBuiltin(names[j]) && names[j] in reg.rules {
          assert j > 0 ==> names[j] == names[1..][j - 1];
        }
      }
    }
  }

  /** The registered rules in the order of their names, or the first name refused. */
  ghost predicate ResolvedTo(reg: Registry, names: seq<string>, r: Result<seq<Option<Rule>>, AuthError>) {
    match r
    case Ok(rules) =>
      |rules| == |names| && forall i :: 0 <= i < |names| ==>
        names[i] !in {"assurance", "recent_auth"} && names[i] in reg.rules && rules[i] == Some(reg.rules[names[i]])
    case Err(e) => exists j :: FirstRefused(reg, names, j, e)
  }

  lemma {:induction false} ResolveMeaning(reg: Registry, names: seq<string>)
    ensures ResolvedTo(reg, names, Resolve(reg, names))
    decreases |names|
  {
    if names != [] {
      ResolveMeaning(reg, names[1..]);
      ResolvedOneMore(reg, names, Resolve(reg, names[1..]));
    }
  }

  lemma ResolvedOneMore(reg: Registry, names: seq<string>, rest: Result<seq<Option<Rule>>, AuthError>)
    requires names != [] && ResolvedTo(reg, names[1..], rest)
    ensures if IsBuiltin(names[0]) then ResolvedTo(reg, names, Err(BuiltinReferenced(names[0])))
            else if names[0] !in reg.rules then ResolvedTo(reg, names, Err(NotRegistered(names[0])))
            else if rest.Err? then ResolvedTo(reg, names, Err(rest.error))
            else ResolvedTo(reg, names, Ok([Some(reg.rules[names[0]])] + rest.value))
  {
    if IsBuiltin(names[0]) {
      assert FirstRefused(reg, names, 0, BuiltinReferenced(names[0]));
    } else if names[0] !in reg.rules {
      assert FirstRefused(reg, names, 0, NotRegistered(names[0]));
    } else if rest.Err? {
      var j :| FirstRefused(reg, names[1..], j, rest.error);
      RefusedLater(reg, names, j, rest.error);
    } else {
      forall i | 0 <= i < |names|
        ensures names[i] !in {"assurance", "recent_auth"} && names[i] in reg.rules
        ensures ([Some(reg.rules[names[0]])] + rest.value)[i] == Some(reg.rules[names[i]])
      {
        assert i > 0 ==> names[i] == names[1..][i - 1];
      }
    }
  }

  lemma RefusedLater(reg: Registry, names: seq<string>, j: nat, error: AuthError)
    requires names != [] && NamesClosed(reg, names[..1]) && FirstRefused(reg, names[1..], j, error)
    ensures FirstRefused(reg, names, j + 1, error)
  {
    assert names[1..][j] == names[j + 1];
    forall i | 0 <= i < j + 1 ensures !IsBuiltin(names[i]) && names[i] in reg.rules {
      assert names[i] == if i == 0 then names[..1][0] else names[1..][..j][i - 1];
    }
  }

  lemma {:induction false} FirstIsFound(ops: seq<Operation>, id: string, k: nat)
    requires k < |ops| && ops[k].id == id && forall i :: 0 <= i < k ==> ops[i].id != id
    ensures FindOperation(ops, id) == Some(ops[k])
    decreases k
  {
    if k > 0 {
      FirstIsFound(ops[1..], id, k - 1);
    }
  }

  lemma {:induction false} NoneIsFound(ops: seq<Operation>, id: string)
    requires forall i :: 0 <= i < |ops| ==> ops[i].id != id
    ensures FindOperation(ops, id).None?
    decreases |ops|
  {
    if ops != [] {
      NoneIsFound(ops[1..], id);
    }
  }

  /** An operation the catalog does not have is refused whatever else holds. */
  lemma UnknownOperationIsRefused(c: Catalog, reg: Registry, id: string, principal: Option<Principal>,
                                  scope: Option<Scope>, now: int, clock: int, loaded: Option<Facts>)
    requires forall i :: 0 <= i < |c.operations| ==> c.operations[i].id != id
    ensures Authorize(c, reg, id, principal, scope, now, clock, loaded)
            == Ok(Decision(Deny, Policy, UnknownOperationOrScope, None))
  {
    NoneIsFound(c.operations, id);
  }

  /** For a known one the answer is, in this order: the facts could not be loaded; one of them is not
      registered; a rule cannot be referred to; or the evaluator's decision under the operation's rules. */
  lemma KnownOperationIsEvaluated(c: Catalog, reg: Registry, k: nat, principal: Option<Principal>,
                                  scope: Option<Scope>, now: int, clock: int, loaded: Option<Facts>,
                                  rules: seq<Option<Rule>>)
    requires k < |c.operations| && forall i :: 0 <= i < k ==> c.operations[i].id != c.operations[k].id
    ensures var (op, r) := (c.operations[k],
                            Authorize(c, reg, c.operations[k].id, principal, scope, now, clock, loaded));
            if loaded.None? then r == Err(FactsUnavailable)
            else if exists fact :: fact in loaded.value.product && fact !in reg.facts then r == Err(UnregisteredFact)
            else if r.Err? then exists j :: FirstRefused(reg, op.rules, j, r.error)
            else if |rules| == |op.rules|
                    && forall i :: 0 <= i < |rules| ==>
                      op.rules[i] in reg.rules && rules[i] == Some(reg.rules[op.rules[i]])
            then r == Ok(Evaluate(op, principal, scope, loaded.value, now, clock, rules))
            else true
  {
    FirstIsFound(c.operations, c.operations[k].id, k);
    ResolveMeaning(reg, c.operations[k].rules);
    var resolved := Resolve(reg, c.operations[k].rules);
    if resolved.Ok? && |rules| == |resolved.value| && forall i :: 0 <= i < |rules| ==> rules[i] == resolved.value[i] {
      assert rules == resolved.value;
    }
  }

  /** Rules and facts are only ever added to a registry; a catalog validated earlier then always
      gets an answer once its facts are in, never a resolution error. */
  lemma AuthorizeAlwaysAnswers(c: Catalog, earlier: Registry, reg: Registry, id: string, principal: Option<Principal>,
                               scope: Option<Scope>, now: int, clock: int, facts: Facts)
    requires Passes(c, earlier) && earlier.rules.Keys <= reg.rules.Keys && facts.product <= reg.facts
    ensures Authorize(c, reg, id, principal, scope, now, clock, Some(facts)).Ok?
  {
    if FindOperation(c.operations, id).Some? {
      var op := FindOperation(c.operations, id).value;
      FoundIsMember(c.operations, id);
      PassingOperations(c, earlier, op);
      ResolveSucceeds(reg, op.rules);
    }
  }

  // ---- the omission, concretely --------------------------------------------------

  const READ := Operation("read", ScopedTokenMethod, ProjectCredential, [], ["viewer"],
                          AssuranceOmitted, RecentOmitted, 0, IdempotencyOmitted, [])

  function CatalogOf(op: Operation): Catalog {
    Catalog(CURRENT_VERSION, [], ["viewer"], [op])
  }

  lemma ReadIsWellFormed()
    ensures NormalOperation(READ) == Filled(READ) && NormalOperation(Filled(READ)) == Filled(READ)
    ensures OperationFaultOf(Filled(READ), [], ["viewer"]).None?
  {
    assert SortedNames(["viewer"]) == ["viewer"] && SortedNames([]) == [];
    assert ClosedName("read");
  }

  lemma OneOperationCatalogPasses(op: Operation, reg: Registry)
    requires NormalOperation(op) == Filled(READ)
    ensures Passes(CatalogOf(op), reg)
  {
    ReadIsWellFormed();
    var (c, n) := (CatalogOf(op), CatalogOf(Filled(READ)));
    assert Mapped(c.operations, NormalOperation) == n.operations;
    assert NormalForm(c, n);
    assert ClosedName("viewer");
    assert StructureOk(n) && RulesClosed(reg, n.operations);
  }

  const HOLDER := ScopedToken("user", "w", "p")

  const GOOD_FACTS := Facts(true, true, true, true, true, [], ["viewer"], AssuranceNone, 0, 0, true, {})

  lemma FilledReadIsAllowed(now: int)
    ensures Evaluate(Filled(READ), Some(HOLDER), Some(ProjectScope("w", "p")), GOOD_FACTS, now, now, [])
            == Decision(Allow, Complete, Allowed, None)
  {
    ReadIsWellFormed();
    var q := Query(Filled(READ), Some(HOLDER), ProjectScope("w", "p"), GOOD_FACTS, At(now, now));
    assert "viewer" in GOOD_FACTS.projectRoles && "viewer" in Filled(READ).projectRoles;
    AllowIffEntitled(Filled(READ), Some(HOLDER), ProjectScope("w", "p"), GOOD_FACTS, now, now, []);
    assert Entitled(q);
    DecidedByFirstUnclear(q, [], 0);
  }

  lemma ReadShutsOut(reg: Registry, principal: Option<Principal>, scope: Option<Scope>, now: int, clock: int,
                     loaded: Option<Facts>)
    ensures var r := Authorize(CatalogOf(READ), reg, "read", principal, scope, now, clock, loaded);
            r.Ok? ==> r.value.outcome != Allow
  {
    if loaded.Some? {
      OmittedRecentAuthShutsOut(READ, principal, scope, loaded.value, now, clock, []);
    }
  }

  /** A catalog with one token operation that leaves recent_auth out passes validation and allows
      nobody; with the default spelled out it passes as well and allows the token's holder. */
  lemma OmissionPassesAndShutsOut(reg: Registry, principal: Option<Principal>, scope: Option<Scope>, now: int,
                                  clock: int, loaded: Option<Facts>)
    ensures Passes(CatalogOf(READ), reg) && Passes(CatalogOf(Filled(READ)), reg)
    ensures var r := Authorize(CatalogOf(READ), reg, "read", principal, scope, now, clock, loaded);
            r.Ok? ==> r.value.outcome != Allow
    ensures Authorize(CatalogOf(Filled(READ)), reg, "read", Some(HOLDER), Some(ProjectScope("w", "p")), now, now,
                      Some(GOOD_FACTS)) == Ok(Decision(Allow, Complete, Allowed, None))
  {
    ReadIsWellFormed();
    OneOperationCatalogPasses(READ, reg);
    OneOperationCatalogPasses(Filled(READ), reg);
    ReadShutsOut(reg, principal, scope, now, clock, loaded);
    FilledReadIsAllowed(now);
  }
}
