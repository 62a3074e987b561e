/** What the catalog's normal form, and so its hash, depends on. */
module CatalogOrder {
  import opened Common
  import opened Evaluator
  import opened Permutations
  import opened Catalog
  import Ordering

  /** The same declaration, up to the order of its lists and defaults left out. */
  ghost predicate SameDeclaration(x: Operation, y: Operation) {
    && x.id == y.id && x.authMethod == y.authMethod && x.scope == y.scope && x.windowSeconds == y.windowSeconds
    && Filled(x).assurance == Filled(y).assurance && Filled(x).recentAuth == Filled(y).recentAuth
    && Filled(x).idempotency == Filled(y).idempotency
    && multiset(x.workspaceRoles) == multiset(y.workspaceRoles)
    && multiset(x.projectRoles) == multiset(y.projectRoles)
    && multiset(x.rules) == multiset(y.rules)
  }

  lemma NormalOperationForgetsOrder(x: Operation, y: Operation)
    ensures NormalOperation(x) == NormalOperation(y) <==> SameDeclaration(x, y)
  {
    SortedNamesForgetOrder(x.workspaceRoles, y.workspaceRoles);
    SortedNamesForgetOrder(x.projectRoles, y.projectRoles);
    SortedNamesForgetOrder(x.rules, y.rules);
  }

  /** One catalog's operations shuffled into mid, and each then written down differently. */
  ghost predicate ReorderedVia(c: Catalog, d: Catalog, mid: seq<Operation>) {
    && c.version == d.version
    && multiset(c.workspaceRoles) == multiset(d.workspaceRoles)
    && multiset(c.projectRoles) == multiset(d.projectRoles)
    && multiset(mid) == multiset(c.operations) && |mid| == |d.operations|
    && forall i :: 0 <= i < |mid| ==> SameDeclaration(mid[i], d.operations[i])
  }

  ghost predicate Reordered(c: Catalog, d: Catalog) {
    exists mid :: ReorderedVia(c, d, mid)
  }

  lemma ReorderingKeepsNormalOperations(c: Catalog, d: Catalog, mid: seq<Operation>)
    requires ReorderedVia(c, d, mid)
    ensures multiset(Mapped(c.operations, NormalOperation)) == multiset(Mapped(d.operations, NormalOperation))
  {
    MappedPermutation(mid, c.operations, NormalOperation);
    forall i | 0 <= i < |mid| ensures NormalOperation(mid[i]) == NormalOperation(d.operations[i]) {
      NormalOperationForgetsOrder(mid[i], d.operations[i]);
    }
    assert Mapped(mid, NormalOperation) == Mapped(d.operations, NormalOperation);
  }

  /** A normal form with distinct ids is the only one with those operations. */
  lemma ValidNormalFormIsUnique(c: Catalog, d: Catalog, n: Catalog, m: Catalog)
    requires NormalForm(c, n) && NormalForm(d, m) && StructureOk(n)
    requires multiset(Mapped(c.operations, NormalOperation)) == multiset(Mapped(d.operations, NormalOperation))
    ensures n.operations == m.operations
  {
    Ordering.SortedUnique(n.operations, m.operations, Id);
  }

  /** Same normal form, from one side: a valid normal form is shared by every reordering. */
  lemma ReorderingSharesNormalForm(c: Catalog, d: Catalog, n: Catalog, m: Catalog)
    requires Reordered(c, d) && NormalForm(c, n) && NormalForm(d, m)
    requires StructureOk(n) || StructureOk(m)
    ensures n == m
  {
    var mid :| ReorderedVia(c, d, mid);
    SortedNamesForgetOrder(c.workspaceRoles, d.workspaceRoles);
    SortedNamesForgetOrder(c.projectRoles, d.projectRoles);
    ReorderingKeepsNormalOperations(c, d, mid);
    if StructureOk(n) {
      ValidNormalFormIsUnique(c, d, n, m);
    } else {
      ValidNormalFormIsUnique(d, c, m, n);
    }
  }

  /** And from the other: catalogs with a common normal form are reorderings of each other. */
  lemma SharedNormalFormMeansReordered(c: Catalog, d: Catalog, n: Catalog)
    requires NormalForm(c, n) && NormalForm(d, n)
    ensures Reordered(c, d)
  {
    SortedNamesForgetOrder(c.workspaceRoles, d.workspaceRoles);
    SortedNamesForgetOrder(c.projectRoles, d.projectRoles);
    var mid := MatchedThroughMap(c.operations, d.operations, NormalOperation);
    assert |mid| == |Mapped(mid, NormalOperation)| == |Mapped(d.operations, NormalOperation)|;
    forall i | 0 <= i < |mid| ensures SameDeclaration(mid[i], d.operations[i]) {
      assert Mapped(mid, NormalOperation)[i] == Mapped(d.operations, NormalOperation)[i];
      NormalOperationForgetsOrder(mid[i], d.operations[i]);
    }
    assert ReorderedVia(c, d, mid);
  }

  /** Hashing two catalogs that differ in order only: both fail, or both give the same hash. */
  lemma HashIgnoresOrder(c: Catalog, d: Catalog, digest: Catalog -> string,
                         r: Result<string, Fault>, r': Result<string, Fault>)
    requires Reordered(c, d) && HashOutcome(c, digest, r) && HashOutcome(d, digest, r')
    ensures r.Ok? <==> r'.Ok?
    ensures r.Ok? ==> r == r'
  {
    var n :| NormalForm(c, n) && (r.Ok? <==> StructureOk(n)) && (r.Ok? ==> r.value == digest(n));
    var m :| NormalForm(d, m) && (r'.Ok? <==> StructureOk(m)) && (r'.Ok? ==> r'.value == digest(m));
    if r.Ok? || r'.Ok? {
      ReorderingSharesNormalForm(c, d, n, m);
    }
  }

  /** With a digest that tells catalogs apart, equal hashes mean the catalogs differ in order only. */
  lemma EqualHashesMeanReordered(c: Catalog, d: Catalog, digest: Catalog -> string,
                                 r: Result<string, Fault>, r': Result<string, Fault>)
    requires forall x, y :: digest(x) == digest(y) ==> x == y
    requires HashOutcome(c, digest, r) && HashOutcome(d, digest, r') && r.Ok? && r == r'
    ensures Reordered(c, d)
  {
    var n :| NormalForm(c, n) && (r.Ok? ==> r.value == digest(n));
    var m :| NormalForm(d, m) && (r'.Ok? ==> r'.value == digest(m));
    SharedNormalFormMeansReordered(c, d, n);
  }

  lemma SortingTwice(xs: seq<string>)
    ensures SortedNames(SortedNames(xs)) == SortedNames(xs)
  {
    SortedNamesSorts(xs);
    SortedNamesForgetOrder(SortedNames(xs), xs);
  }

  lemma NormalOperationTwice(op: Operation)
    ensures NormalOperation(NormalOperation(op)) == NormalOperation(op)
  {
    SortingTwice(op.workspaceRoles);
    SortingTwice(op.projectRoles);
    SortingTwice(op.rules);
  }

  /** A normal form is a normal form of itself. */
  lemma NormalFormIsNormal(c: Catalog, n: Catalog)
    requires NormalForm(c, n)
    ensures NormalForm(n, n)
  {
    SortingTwice(c.workspaceRoles);
    SortingTwice(c.projectRoles);
    forall i | 0 <= i < |n.operations| ensures NormalOperation(n.operations[i]) == n.operations[i] {
      assert n.operations[i] in multiset(Mapped(c.operations, NormalOperation));
      var k :| 0 <= k < |c.operations| && Mapped(c.operations, NormalOperation)[k] == n.operations[i];
      NormalOperationTwice(c.operations[k]);
    }
    assert Mapped(n.operations, NormalOperation) == n.operations;
  }

  /** Normalizing twice is normalizing once, for every catalog that passes validation. */
  lemma NormalizationIsIdempotent(c: Catalog, n: Catalog, m: Catalog)
    requires NormalForm(c, n) && NormalForm(n, m) && StructureOk(n)
    ensures m == n
  {
    NormalFormIsNormal(c, n);
    SortingTwice(c.workspaceRoles);
    SortingTwice(c.projectRoles);
    ValidNormalFormIsUnique(n, n, n, m);
  }

  // ---- exactly when the result is unique -------------------------------------

  lemma SwapStaysNormal(c: Catalog, n: Catalog, i: nat, j: nat)
    requires NormalForm(c, n) && i < j < |n.operations| && n.operations[i].id == n.operations[j].id
    ensures NormalForm(c, n.(operations := n.operations[i := n.operations[j]][j := n.operations[i]]))
  {
    var ops := n.operations;
    var swapped := ops[i := ops[j]][j := ops[i]];
    assert forall k :: 0 <= k < |ops| ==> Id(swapped[k]) == Id(ops[k]);
    assert multiset(swapped) == multiset(ops);
  }

  /** The unstable sort leaves no choice exactly when operations of the same id are the same. */
  lemma UniqueIffIdsIdentify(c: Catalog, n: Catalog)
    requires NormalForm(c, n)
    ensures (forall m :: NormalForm(c, m) ==> m == n) <==> Ordering.KeysIdentify(n.operations, Id)
  {
    var ops := n.operations;
    if Ordering.KeysIdentify(ops, Id) {
      forall m | NormalForm(c, m) ensures m == n {
        Ordering.SortedUnique(ops, m.operations, Id);
      }
    } else {
      var i, j :| 0 <= i < |ops| && 0 <= j < |ops| && ops[i].id == ops[j].id && ops[i] != ops[j];
      var (lo, hi) := if i < j then (i, j) else (j, i);
      var m := n.(operations := ops[lo := ops[hi]][hi := ops[lo]]);
      SwapStaysNormal(c, n, lo, hi);
      assert m.operations[lo] != ops[lo];
    }
  }
}
