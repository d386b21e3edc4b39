/** The quantifier prefix as it is read: universal and existential blocks, explicit dependencies. */
module QuantifierPrefixes {
  import opened DependencyTables

  /** Blocks one after the other, with the ends of the blocks of each kind. */
  datatype Prefix = Prefix(firstUniversal: bool, universals: seq<int>, universalEnds: seq<nat>,
                           existentials: seq<int>, existentialEnds: seq<nat>)

  /** Ends of the blocks of a list, with a leading 0; no block is empty. */
  ghost predicate Boundaries(ends: seq<nat>, n: nat) {
    && |ends| >= 1 && ends[0] == 0 && ends[|ends| - 1] == n
    && forall i, j :: 0 <= i < j < |ends| ==> ends[i] < ends[j]
  }

  /** Blocks of both kinds take turns. */
  ghost predicate Alternating(p: Prefix) {
    if p.firstUniversal then |p.existentialEnds| <= |p.universalEnds| <= |p.existentialEnds| + 1
    else |p.universalEnds| <= |p.existentialEnds| <= |p.universalEnds| + 1
  }

  ghost predicate Blocks(p: Prefix) {
    && Boundaries(p.universalEnds, |p.universals|) && Boundaries(p.existentialEnds, |p.existentials|)
    && Alternating(p)
  }

  /** How many universals are quantified before existential block i. */
  function Preceding(p: Prefix, i: nat): nat
    requires (if p.firstUniversal then i + 1 else i) < |p.universalEnds|
  {
    p.universalEnds[if p.firstUniversal then i + 1 else i]
  }

  ghost predicate ScopedAt(p: Prefix, scope: map<int, set<int>>, i: nat, k: nat)
    requires Blocks(p) && i + 1 < |p.existentialEnds| && p.existentialEnds[i] <= k < p.existentialEnds[i + 1]
  {
    && (if p.firstUniversal then i + 1 else i) < |p.universalEnds| && k < |p.existentials|
    && Preceding(p, i) <= |p.universals|
    && p.existentials[k] in scope && scope[p.existentials[k]] == Elements(p.universals[..Preceding(p, i)])
  }

  lemma BlockInRange(p: Prefix, i: nat)
    requires Blocks(p) && i + 1 < |p.existentialEnds|
    ensures (if p.firstUniversal then i + 1 else i) < |p.universalEnds| && Preceding(p, i) <= |p.universals|
    ensures p.existentialEnds[i] < p.existentialEnds[i + 1] <= |p.existentials|
  {
    var u, e := p.universalEnds, p.existentialEnds;
    var j := if p.firstUniversal then i + 1 else i;
    assert j < |u| - 1 ==> u[j] < u[|u| - 1];
    assert i + 1 < |e| - 1 ==> e[i + 1] < e[|e| - 1];
  }

  /** The scope of an existential of a block is the set of the universals quantified before it. */
  ghost predicate Scoped(p: Prefix, scope: map<int, set<int>>)
    requires Blocks(p)
  {
    forall i: nat, k: nat :: i + 1 < |p.existentialEnds| && p.existentialEnds[i] <= k < p.existentialEnds[i + 1] ==>
      ScopedAt(p, scope, i, k)
  }

  predicate LastUniversal(p: Prefix) {
    if |p.existentialEnds| == |p.universalEnds| then !p.firstUniversal else p.firstUniversal
  }

  // ------------------------------------------------------- one more block

  /** A new end, or the last end moved. */
  function NextEnds(ends: seq<nat>, sameKind: bool, n: nat): seq<nat>
    requires |ends| >= 1
  {
    if !sameKind || |ends| == 1 then ends + [n] else ends[|ends| - 1 := n]
  }

  function WithUniversals(p: Prefix, variables: seq<int>): Prefix
    requires |p.universalEnds| >= 1
  {
    var q := p.(firstUniversal := p.existentials == [] || p.firstUniversal, universals := p.universals + variables);
    q.(universalEnds := NextEnds(q.universalEnds, LastUniversal(q), |q.universals|))
  }

  function WithExistentials(p: Prefix, variables: seq<int>): Prefix
    requires |p.existentialEnds| >= 1
  {
    var q := p.(firstUniversal := p.universals != [] && p.firstUniversal, existentials := p.existentials + variables);
    q.(existentialEnds := NextEnds(q.existentialEnds, !LastUniversal(q), |q.existentials|))
  }

  lemma EmptyHasNoBlocks(ends: seq<nat>, n: nat)
    requires Boundaries(ends, n)
    ensures n == 0 <==> |ends| == 1
  {
    if |ends| > 1 { assert ends[0] < ends[|ends| - 1]; }
  }

  lemma NextBoundaries(ends: seq<nat>, sameKind: bool, n: nat, m: nat)
    requires Boundaries(ends, n) && n < m
    ensures Boundaries(NextEnds(ends, sameKind, m), m)
  {
    forall i | 0 <= i < |ends| - 1 ensures ends[i] < n {}
  }

  lemma UniversalsBlocks(p: Prefix, variables: seq<int>)
    requires Blocks(p) && variables != []
    ensures Blocks(WithUniversals(p, variables))
  {
    EmptyHasNoBlocks(p.existentialEnds, |p.existentials|);
    EmptyHasNoBlocks(p.universalEnds, |p.universals|);
    var q := p.(firstUniversal := p.existentials == [] || p.firstUniversal, universals := p.universals + variables);
    NextBoundaries(p.universalEnds, LastUniversal(q), |p.universals|, |q.universals|);
    hide Boundaries;
  }

  lemma ExistentialsBlocks(p: Prefix, variables: seq<int>)
    requires Blocks(p) && variables != []
    ensures Blocks(WithExistentials(p, variables))
  {
    EmptyHasNoBlocks(p.existentialEnds, |p.existentials|);
    EmptyHasNoBlocks(p.universalEnds, |p.universals|);
    var q := p.(firstUniversal := p.universals != [] && p.firstUniversal, existentials := p.existentials + variables);
    NextBoundaries(p.existentialEnds, !LastUniversal(q), |p.existentials|, |q.existentials|);
    hide Boundaries;
  }

  /** Universals read later are in no scope. */
  lemma UniversalsScoped(p: Prefix, scope: map<int, set<int>>, variables: seq<int>)
    requires Blocks(p) && Scoped(p, scope) && variables != []
    ensures Blocks(WithUniversals(p, variables)) && Scoped(WithUniversals(p, variables), scope)
  {
    UniversalsBlocks(p, variables);
    EmptyHasNoBlocks(p.existentialEnds, |p.existentials|);
    var q := WithUniversals(p, variables);
    hide Boundaries;
    forall i: nat, k: nat | i + 1 < |q.existentialEnds| && q.existentialEnds[i] <= k < q.existentialEnds[i + 1]
      ensures ScopedAt(q, scope, i, k)
    {
      assert ScopedAt(p, scope, i, k);
      BlockInRange(q, i);
      EndKept(p, variables, i);
    }
  }

  lemma EndKept(p: Prefix, variables: seq<int>, i: nat)
    requires Blocks(p) && variables != [] && i + 1 < |p.existentialEnds|
    ensures var q, j := WithUniversals(p, variables), if p.firstUniversal then i + 1 else i;
            && q.firstUniversal == p.firstUniversal && j < |p.universalEnds| && j < |q.universalEnds|
            && q.universalEnds[j] == p.universalEnds[j] <= |p.universals|
            && q.universals[..q.universalEnds[j]] == p.universals[..p.universalEnds[j]]
  {
    EmptyHasNoBlocks(p.existentialEnds, |p.existentials|);
    EmptyHasNoBlocks(p.universalEnds, |p.universals|);
    BlockInRange(p, i);
    hide Boundaries;
  }

  /** New existentials have all universals read so far in their scope. */
  lemma ExistentialsScoped(p: Prefix, scope: map<int, set<int>>, variables: seq<int>)
    requires Blocks(p) && Scoped(p, scope) && variables != [] && Elements(variables) !! Elements(p.existentials)
    ensures Blocks(WithExistentials(p, variables))
    ensures Scoped(WithExistentials(p, variables), scope + ScopeOf(variables, p.universals))
  {
    ExistentialsBlocks(p, variables);
    var q, s := WithExistentials(p, variables), scope + ScopeOf(variables, p.universals);
    hide Boundaries;
    forall i: nat, k: nat | i + 1 < |q.existentialEnds| && q.existentialEnds[i] <= k < q.existentialEnds[i + 1]
      ensures ScopedAt(q, s, i, k)
    {
      BlockInRange(q, i);
      if k < |p.existentials| {
        OldBlock(p, variables, i, k);
        assert ScopedAt(p, scope, i, k);
        assert q.existentials[k] == p.existentials[k] && p.existentials[k] in Elements(p.existentials);
      } else {
        NewBlock(p, variables, i, k);
        assert q.existentials[k] == variables[k - |p.existentials|] && variables[k - |p.existentials|] in Elements(variables);
        assert p.universals[..|p.universals|] == p.universals;
      }
    }
  }

  ghost function ScopeOf(variables: seq<int>, universals: seq<int>): map<int, set<int>> {
    map v | v in Elements(variables) :: Elements(universals)
  }

  lemma OldBlock(p: Prefix, variables: seq<int>, i: nat, k: nat)
    requires Blocks(p) && variables != [] && Blocks(WithExistentials(p, variables)) && k < |p.existentials|
    requires var q := WithExistentials(p, variables);
             i + 1 < |q.existentialEnds| && q.existentialEnds[i] <= k < q.existentialEnds[i + 1]
    ensures i + 1 < |p.existentialEnds| && p.existentialEnds[i] <= k < p.existentialEnds[i + 1]
    ensures WithExistentials(p, variables).firstUniversal == p.firstUniversal
  {
    EmptyHasNoBlocks(p.existentialEnds, |p.existentials|);
    EmptyHasNoBlocks(p.universalEnds, |p.universals|);
  }

  lemma NewBlock(p: Prefix, variables: seq<int>, i: nat, k: nat)
    requires Blocks(p) && variables != [] && Blocks(WithExistentials(p, variables)) && k >= |p.existentials|
    requires var q := WithExistentials(p, variables);
             i + 1 < |q.existentialEnds| && q.existentialEnds[i] <= k < q.existentialEnds[i + 1]
    ensures var q := WithExistentials(p, variables);
            (if q.firstUniversal then i + 1 else i) < |q.universalEnds| && Preceding(q, i) == |p.universals|
  {
    EmptyHasNoBlocks(p.existentialEnds, |p.existentials|);
    EmptyHasNoBlocks(p.universalEnds, |p.universals|);
    var q := WithExistentials(p, variables);
    assert i + 1 < |p.existentialEnds| ==> p.existentialEnds[i + 1] <= |p.existentials|;
  }

  // ------------------------------------------------------- the object

  class QuantifierPrefix {
    var firstUniversal: bool
    var universals: seq<int>
    var universalEnds: seq<nat>
    var existentials: seq<int>
    var existentialEnds: seq<nat>
    var explicit: map<int, seq<int>>
    /** For each existential of a block the universals that were quantified before it. */
    ghost var scope: map<int, set<int>>

    function Snap(): Prefix
      reads this
    {
      Prefix(firstUniversal, universals, universalEnds, existentials, existentialEnds)
    }

    ghost predicate Valid()
      reads this
    {
      Blocks(Snap()) && Scoped(Snap(), scope) && scope.Keys == Elements(existentials)
    }

    constructor ()
      ensures Valid() && universals == [] && existentials == [] && explicit == map[] && scope == map[]
    {
      firstUniversal := false;
      universals, universalEnds := [], [0];
      existentials, existentialEnds := [], [0];
      explicit, scope := map[], map[];
    }

    /** Universals join the last block if it is universal; no existential read so far depends on them. */
    method AddUniversalBlock(variables: seq<int>)
      requires Valid()
      modifies this
      ensures Valid() && universals == old(universals) + variables && existentials == old(existentials)
      ensures explicit == old(explicit) && scope == old(scope)
    {
      hide Blocks, Scoped;
      if variables == [] { return; }
      KeepEnds(Snap());
      UniversalsScoped(Snap(), scope, variables);
      if existentials == [] {
        firstUniversal := true;
      }
      universals := universals + variables;
      var last := LastUniversal(Snap());
      if !last || |universalEnds| == 1 {
        universalEnds := universalEnds + [|universals|];
      } else {
        universalEnds := universalEnds[|universalEnds| - 1 := |universals|];
      }
    }

    /** Existentials depend on all universals read so far. */
    method AddExistentialBlock(variables: seq<int>)
      requires Valid() && Elements(variables) !! Elements(existentials)
      modifies this
      ensures Valid() && universals == old(universals) && existentials == old(existentials) + variables
      ensures explicit == old(explicit) && scope == old(scope) + ScopeOf(variables, universals)
    {
      hide Blocks, Scoped;
      if variables == [] {
        assert ScopeOf(variables, universals) == map[];
        return;
      }
      KeepEnds(Snap());
      ExistentialsScoped(Snap(), scope, variables);
      ConcatElements(existentials, variables);
      if universals == [] {
        firstUniversal := false;
      }
      existentials := existentials + variables;
      var last := !LastUniversal(Snap());
      if !last || |existentialEnds| == 1 {
        existentialEnds := existentialEnds + [|existentials|];
      } else {
        existentialEnds := existentialEnds[|existentialEnds| - 1 := |existentials|];
      }
      scope := scope + ScopeOf(variables, universals);
    }

    method AddExplicitDependencies(v: int, dependencies: seq<int>)
      modifies `explicit
      ensures explicit == old(explicit)[v := dependencies]
    {
      explicit := explicit[v := dependencies];
    }
  }

  lemma KeepEnds(p: Prefix)
    requires Blocks(p)
    ensures |p.universalEnds| >= 1 && |p.existentialEnds| >= 1
  {}

  lemma ConcatElements(a: seq<int>, b: seq<int>)
    ensures Elements(a + b) == Elements(a) + Elements(b)
  {
    assert forall x :: x in a + b <==> x in a || x in b;
  }
}
