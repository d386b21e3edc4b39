/** The search for unate literals, with one incremental query per variable and sign. */
module UnateCheckers {
  import opened Dqbf
  import opened Unates

  /** A solver with the search formula; true when it refutes the assumptions within its limits. */
  type Refuter = seq<int> -> bool

  ghost predicate Refutes(f: seq<Clause>, unsat: Refuter) {
    forall a: seq<int>, val: Valuation :: unsat(a) ==> !(AllSat(val, f) && AllTrue(val, a))
  }

  /** The solver has no limits. */
  ghost predicate Exhausts(f: seq<Clause>, unsat: Refuter) {
    forall a: seq<int> :: !unsat(a) ==> exists val: Valuation :: AllSat(val, f) && AllTrue(val, a)
  }

  /** m is the largest variable of the formula, 0 if it has none. */
  ghost predicate IsMaxVariable(f: seq<Clause>, m: int) {
    && m >= 0 && (forall i, j :: 0 <= i < |f| && 0 <= j < |f[i]| ==> Abs(f[i][j]) <= m)
    && (m > 0 ==> exists i, j :: 0 <= i < |f| && 0 <= j < |f[i]| && Abs(f[i][j]) == m)
  }

  method MaxVarIndex(f: seq<Clause>) returns (maximum: int)
    ensures IsMaxVariable(f, maximum)
  {
    maximum := 0;
    for i := 0 to |f|
      invariant IsMaxVariable(f[..i], maximum)
    {
      var c := f[i];
      NoLiteral(f[..i], maximum);
      assert c[..0] == [];
      for j := 0 to |c|
        invariant IsMaxVariable(f[..i] + [c[..j]], maximum)
      {
        LargerVariable(f[..i], c, j, maximum);
        maximum := if maximum < Abs(c[j]) then Abs(c[j]) else maximum;
      }
      assert c[..|c|] == c && f[..i] + [c] == f[..i + 1];
    }
    assert f[..|f|] == f;
  }

  lemma NoLiteral(f: seq<Clause>, m: int)
    requires IsMaxVariable(f, m)
    ensures IsMaxVariable(f + [[]], m)
  {
    var after := f + [[]];
    if m > 0 {
      var i, k :| 0 <= i < |f| && 0 <= k < |f[i]| && Abs(f[i][k]) == m;
      assert Abs(after[i][k]) == m;
    }
  }

  lemma LargerVariable(f: seq<Clause>, c: Clause, j: nat, m: int)
    requires j < |c| && IsMaxVariable(f + [c[..j]], m)
    ensures IsMaxVariable(f + [c[..j + 1]], if m < Abs(c[j]) then Abs(c[j]) else m)
  {
    var before, after, n := f + [c[..j]], f + [c[..j + 1]], |f|;
    assert after[n][j] == c[j];
    forall i, k | 0 <= i < |after| && 0 <= k < |after[i]| && !(i == n && k == j)
      ensures Abs(after[i][k]) <= m
    {
      assert before[i][k] == after[i][k];
    }
    if m >= Abs(c[j]) && m > 0 {
      var i, k :| 0 <= i < |before| && 0 <= k < |before[i]| && Abs(before[i][k]) == m;
      assert after[i][k] == before[i][k];
    }
  }

  /** New variables start behind maxVariable or, if that is 0, behind the variables of the formula. */
  method NegateFormula(f: seq<Clause>, maxVariable: int) returns (negated: seq<Clause>, clauseVariables: seq<int>, max: int)
    ensures if maxVariable > 0 then max == maxVariable + |f| else IsMaxVariable(f, max - |f|)
    ensures negated == Negation(f, max - |f|)
    ensures |clauseVariables| == |f| && forall i :: 0 <= i < |f| ==> clauseVariables[i] == max - |f| + 1 + i
  {
    hide IsMaxVariable, LitClauses;
    var first := maxVariable;
    if maxVariable <= 0 {
      first := MaxVarIndex(f);
    }
    negated, clauseVariables, max := [], [], first;
    var notAll: Clause := [];
    for i := 0 to |f|
      invariant max == first + i && negated == Indicators(f[..i], first) && notAll == NotAll(i, first)
      invariant |clauseVariables| == i && forall k :: 0 <= k < i ==> clauseVariables[k] == first + 1 + k
    {
      max := max + 1;
      clauseVariables := clauseVariables + [max];
      negated := Indicate(f[i], max, negated);
      assert f[..i + 1][..i] == f[..i] && f[..i + 1][i] == f[i];
      notAll := notAll + [-max];
    }
    assert f[..|f|] == f;
    negated := negated + [notAll];
  }

  /** Every literal of the clause implies the new variable. */
  method Indicate(c: Clause, t: int, before: seq<Clause>) returns (clauses: seq<Clause>)
    ensures clauses == before + LitClauses(c, t)
  {
    clauses := before;
    for j := 0 to |c|
      invariant clauses == before + LitClauses(c[..j], t)
    {
      assert c[..j + 1][..j] == c[..j];
      clauses := clauses + [[-c[j], t]];
    }
    assert c[..|c|] == c;
  }

  /** The clauses are the found literals. */
  ghost predicate Units(clauses: seq<Clause>, found: seq<int>) {
    |clauses| == |found| && forall i :: 0 <= i < |found| ==> clauses[i] == [found[i]]
  }

  /** The positions still open belong to different variables without a found literal. */
  ghost predicate Unsettled(xs: seq<int>, indices: seq<nat>, variables: seq<int>, found: seq<int>) {
    && (forall i :: 0 <= i < |indices| ==> indices[i] < |xs| && xs[indices[i]] in variables)
    && (forall i, j :: 0 <= i < j < |indices| ==> xs[indices[i]] != xs[indices[j]])
    && (forall i, l :: 0 <= i < |indices| && l in found ==> Abs(l) != xs[indices[i]])
  }

  ghost predicate Settled(found: seq<int>, v: int) {
    exists i :: 0 <= i < |found| && Abs(found[i]) == v
  }

  ghost predicate Open(xs: seq<int>, indices: seq<nat>, v: int) {
    exists i :: 0 <= i < |indices| && indices[i] < |xs| && xs[indices[i]] == v
  }

  /** Every variable has its literal or is still open. */
  ghost predicate Accounted(xs: seq<int>, indices: seq<nat>, variables: seq<int>, found: seq<int>) {
    forall k :: 0 <= k < |variables| ==> Settled(found, variables[k]) || Open(xs, indices, variables[k])
  }

  ghost predicate Undecided(matrix: seq<Clause>, found: seq<int>, v: int) {
    !Unate(matrix, found, v) && !Unate(matrix, found, -v)
  }

  /** The variables at the first n open positions are not unate. */
  ghost predicate NoneUnate(matrix: seq<Clause>, xs: seq<int>, indices: seq<nat>, n: nat, found: seq<int>) {
    n <= |indices| && forall i :: 0 <= i < n && indices[i] < |xs| ==> Undecided(matrix, found, xs[indices[i]])
  }

  lemma FreshNames(q: Formula, xs: seq<int>, ys: seq<int>, ss: seq<int>, first: int)
    requires Fresh(q, xs, ys, ss, first)
    ensures |xs| == |ys| == |ss| && (forall v :: v in xs <==> v in q.deps.Keys)
    ensures forall i :: 0 <= i < |xs| ==> 0 < xs[i] < ys[i] && xs[i] < ss[i]
  {
    forall i | 0 <= i < |xs| ensures 0 < xs[i] < ys[i] && xs[i] < ss[i] { assert xs[i] in xs; }
  }

  lemma FreshWellFormed(q: Formula, xs: seq<int>, ys: seq<int>, ss: seq<int>, first: int)
    requires Fresh(q, xs, ys, ss, first)
    ensures WellFormed(q)
  {}

  /** Moving the last assumption into the place of a switch takes out exactly this switch. */
  lemma SwitchedOff(ss: seq<int>, k: nat, found: seq<int>, rest: seq<int>)
    requires k < |ss|
    requires rest == (ss + found)[k := (ss + found)[|ss| + |found| - 1]][..|ss| + |found| - 1]
    ensures forall a :: a in rest <==> (exists i :: 0 <= i < |ss| && i != k && a == ss[i]) || a in found
  {
    var all, last := ss + found, |ss| + |found| - 1;
    forall a | a in rest ensures (exists i :: 0 <= i < |ss| && i != k && a == ss[i]) || a in found {
      var j :| 0 <= j < |rest| && rest[j] == a;
      var i := if j == k then last else j;
      assert i != k && a == all[i];
      if i >= |ss| { assert a == found[i - |ss|]; } else { assert a == ss[i]; }
    }
    forall i | 0 <= i <= last && i != k ensures all[i] in rest {
      assert rest[if i == last then k else i] == all[i];
    }
    forall a | (exists i :: 0 <= i < |ss| && i != k && a == ss[i]) || a in found ensures a in rest {
      if i :| 0 <= i < |ss| && i != k && a == ss[i] {
        assert all[i] == a;
      } else {
        var j :| 0 <= j < |found| && found[j] == a;
        assert all[|ss| + j] == a;
      }
    }
  }

  /** What is assumed in a query: the other switches, the found literals, and the two test literals. */
  lemma QueryBuilt(ss: seq<int>, k: nat, found: seq<int>, rest: seq<int>, l: int, copy: int)
    requires k < |ss|
    requires rest == (ss + found)[k := (ss + found)[|ss| + |found| - 1]][..|ss| + |found| - 1]
    ensures Query(rest + [-l, copy], ss, k, found, l, copy)
  {
    SwitchedOff(ss, k, found, rest);
    forall a ensures a in rest + [-l, copy] <==> a in rest || a == -l || a == copy {}
  }

  lemma RefutedQuery(q: Formula, xs: seq<int>, ys: seq<int>, ss: seq<int>, first: int, ren: map<int, int>, unsat: Refuter,
                     formula: seq<Clause>, assumptions: seq<int>, k: nat, found: seq<int>, l: int)
    requires Fresh(q, xs, ys, ss, first) && Pairs(xs, ys, ren) && formula == SearchFormula(q.matrix, xs, ys, ss, first, ren)
    requires Refutes(formula, unsat) && unsat(assumptions) && k < |xs| && l != 0 && Abs(l) == xs[k]
    requires OverVars(found, q.deps.Keys) && Query(assumptions, ss, k, found, l, if l > 0 then ys[k] else -ys[k])
    ensures Unate(q.matrix, found, l)
  {
    hide Fresh, Pairs, SearchFormula, Query, OverVars, Unate;
    RefutedIsUnate(q, xs, ys, ss, first, ren, assumptions, k, found, l);
  }

  /** A solver without limits refutes the query of every literal that is unate. */
  lemma UnateQuery(q: Formula, xs: seq<int>, ys: seq<int>, ss: seq<int>, first: int, ren: map<int, int>, unsat: Refuter,
                   formula: seq<Clause>, assumptions: seq<int>, k: nat, found: seq<int>, l: int)
    requires Fresh(q, xs, ys, ss, first) && Pairs(xs, ys, ren) && formula == SearchFormula(q.matrix, xs, ys, ss, first, ren)
    requires Exhausts(formula, unsat) && !unsat(assumptions) && k < |xs| && l != 0 && Abs(l) == xs[k]
    requires Query(assumptions, ss, k, found, l, if l > 0 then ys[k] else -ys[k])
    ensures !Unate(q.matrix, found, l)
  {
    hide Fresh, Pairs, SearchFormula, Query, Unate;
    var val: Valuation :| AllSat(val, formula) && AllTrue(val, assumptions);
    UnateIsRefuted(q, xs, ys, ss, first, ren, assumptions, k, found, l, val);
  }

  lemma EmptyChain(q: Formula, xs: seq<int>, indices: seq<nat>, variables: seq<int>)
    requires |indices| == |variables| && forall i :: 0 <= i < |indices| ==> indices[i] < |xs| && xs[indices[i]] == variables[i]
    requires forall i, j :: 0 <= i < j < |variables| ==> variables[i] != variables[j]
    ensures UnateChain(q, []) && Unsettled(xs, indices, variables, [])
  {}

  lemma ChainVars(q: Formula, found: seq<int>)
    requires UnateChain(q, found)
    ensures OverVars(found, q.deps.Keys)
  {}

  lemma UnsettledIndex(xs: seq<int>, indices: seq<nat>, variables: seq<int>, found: seq<int>, i: nat)
    requires Unsettled(xs, indices, variables, found) && i < |indices|
    ensures indices[i] < |xs|
  {}

  /** Moving a position to the end and dropping it, with its literal appended to the found ones. */
  lemma Settle(q: Formula, xs: seq<int>, indices: seq<nat>, variables: seq<int>, found: seq<int>, i: nat, l: int)
    requires Unsettled(xs, indices, variables, found) && UnateChain(q, found) && i < |indices| && indices[i] < |xs|
    requires l != 0 && Abs(l) == xs[indices[i]] && Abs(l) in q.deps.Keys && Unate(q.matrix, found, l)
    ensures Unsettled(xs, indices[i := indices[|indices| - 1]][..|indices| - 1], variables, found + [l])
    ensures UnateChain(q, found + [l])
  {
    hide Unate;
    var rest := indices[i := indices[|indices| - 1]][..|indices| - 1];
    forall j | 0 <= j < |rest| ensures rest[j] < |xs| && xs[rest[j]] in variables && xs[rest[j]] != Abs(l) {
      assert rest[j] == indices[if j == i then |indices| - 1 else j];
    }
    var f := found + [l];
    forall k | 0 <= k < |f| ensures Unate(q.matrix, f[..k], f[k]) {
      if k < |found| { assert f[..k] == found[..k]; } else { assert f[..k] == found; }
    }
    forall j | 0 <= j < |found| ensures Abs(found[j]) != Abs(l) { assert found[j] in found; }
  }

  lemma SettleAccounted(xs: seq<int>, indices: seq<nat>, variables: seq<int>, found: seq<int>, i: nat, l: int)
    requires Accounted(xs, indices, variables, found) && i < |indices| && indices[i] < |xs| && Abs(l) == xs[indices[i]]
    ensures Accounted(xs, indices[i := indices[|indices| - 1]][..|indices| - 1], variables, found + [l])
  {
    var rest, f := indices[i := indices[|indices| - 1]][..|indices| - 1], found + [l];
    forall k | 0 <= k < |variables| ensures Settled(f, variables[k]) || Open(xs, rest, variables[k]) {
      var v := variables[k];
      if Settled(found, v) {
        var j :| 0 <= j < |found| && Abs(found[j]) == v;
        assert f[j] == found[j];
      } else {
        var j :| 0 <= j < |indices| && indices[j] < |xs| && xs[indices[j]] == v;
        if j == i { assert f[|found|] == l; } else { assert rest[if j == |indices| - 1 then i else j] == indices[j]; }
      }
    }
  }

  lemma AllOpen(xs: seq<int>, indices: seq<nat>, variables: seq<int>)
    requires |indices| == |variables| && forall i :: 0 <= i < |indices| ==> indices[i] < |xs| && xs[indices[i]] == variables[i]
    ensures Accounted(xs, indices, variables, [])
  {
    forall k | 0 <= k < |variables| ensures Open(xs, indices, variables[k]) { assert xs[indices[k]] == variables[k]; }
  }

  /** If nothing is unate any more, every variable has its literal or is not unate. */
  lemma NothingLeft(matrix: seq<Clause>, xs: seq<int>, indices: seq<nat>, variables: seq<int>, found: seq<int>)
    requires Accounted(xs, indices, variables, found) && NoneUnate(matrix, xs, indices, |indices|, found)
    ensures forall k :: 0 <= k < |variables| ==> Settled(found, variables[k]) || Undecided(matrix, found, variables[k])
  {
    hide Undecided, Settled;
  }

  /** If no variable is in use, the matrix has none. */
  lemma NoVariables(q: Formula, maxVariable: nat, first: int)
    requires WellFormed(q) && forall v :: v in q.universals + q.deps.Keys ==> v <= maxVariable
    requires if maxVariable > 0 then first == maxVariable else IsMaxVariable(q.matrix, first)
    ensures first == maxVariable
  {
    forall i, j | 0 <= i < |q.matrix| && 0 <= j < |q.matrix[i]|
      ensures 0 < Abs(q.matrix[i][j]) <= maxVariable
    {
      assert OverVars(q.matrix[i], q.universals + q.deps.Keys);
    }
  }

  class UnateChecker {
    const matrix: seq<Clause>
    const existentials: seq<int>
    const first: int
    var renamed: seq<int>
    var switches: seq<int>
    var formula: seq<Clause>
    var unateClauses: seq<Clause>
    ghost var renaming: map<int, int>

    ghost predicate Valid(q: Formula)
      reads this
    {
      && matrix == q.matrix && Fresh(q, existentials, renamed, switches, first) && Pairs(existentials, renamed, renaming)
      && formula == SearchFormula(matrix, existentials, renamed, switches, first, renaming)
    }

    constructor (q: Formula, sortedExistentials: seq<int>, maxVariable: nat)
      requires WellFormed(q) && forall v :: v in q.universals + q.deps.Keys ==> v <= maxVariable
      requires (forall v :: v in sortedExistentials <==> v in q.deps.Keys)
      requires forall i, j :: 0 <= i < j < |sortedExistentials| ==> sortedExistentials[i] < sortedExistentials[j]
      ensures Valid(q) && existentials == sortedExistentials && first == maxVariable && unateClauses == []
    {
      matrix, existentials, first := q.matrix, sortedExistentials, maxVariable;
      renamed, switches, formula, unateClauses := [], [], [], [];
      new;
      var negated, _, max := NegateFormula(matrix, maxVariable);
      NoVariables(q, maxVariable, max - |matrix|);
      var equalities := AddCopies(max);
      var ren := Renaming();
      renaming := ren;
      formula := matrix + RenameAll(negated, ren) + equalities;
    }

    /** A copy and a switch for each existential, and their switched equalities. */
    method AddCopies(start: int) returns (equalities: seq<Clause>)
      requires renamed == [] && switches == []
      modifies `renamed, `switches
      ensures |renamed| == |switches| == |existentials|
      ensures forall k :: 0 <= k < |existentials| ==> renamed[k] == start + 1 + 2 * k && switches[k] == start + 2 + 2 * k
      ensures equalities == Equalities(existentials, renamed, switches)
    {
      var max := start;
      equalities := [];
      for i := 0 to |existentials|
        invariant |renamed| == |switches| == i && max == start + 2 * i
        invariant forall k :: 0 <= k < i ==> renamed[k] == start + 1 + 2 * k && switches[k] == start + 2 + 2 * k
        invariant equalities == Equalities(existentials[..i], renamed, switches)
      {
        max := max + 1;
        renamed := renamed + [max];
        max := max + 1;
        switches := switches + [max];
        assert existentials[..i + 1][..i] == existentials[..i] && renamed[..i] + [renamed[i]] == renamed;
        equalities := equalities + Equality(existentials[i], renamed[i], switches[i]);
      }
      assert existentials[..|existentials|] == existentials;
    }

    method Renaming() returns (ren: map<int, int>)
      requires |renamed| == |existentials| && forall i, j :: 0 <= i < j < |existentials| ==> existentials[i] != existentials[j]
      ensures Pairs(existentials, renamed, ren)
    {
      ren := map[];
      for i := 0 to |existentials|
        invariant forall k :: 0 <= k < i ==> existentials[k] in ren && ren[existentials[k]] == renamed[k]
        invariant forall v :: v in ren ==> v in existentials
      {
        ren := ren[existentials[i] := renamed[i]];
      }
    }

    /** Whether literal, together with the other equalities, is refuted. */
    method CheckUnateLiteral(literal: int, copied: int, assumptions: seq<int>, unsat: Refuter) returns (refuted: bool)
      ensures refuted == unsat(assumptions + [literal, copied])
    {
      var query := assumptions + [literal];
      query := query + [copied];
      assert query == assumptions + [literal, copied];
      refuted := unsat(query);
    }

    /** The positions of the variables among the existentials. */
    method Positions(variables: seq<int>) returns (indices: seq<nat>)
      requires forall v :: v in variables ==> v in existentials
      ensures |indices| == |variables|
      ensures forall i :: 0 <= i < |indices| ==> indices[i] < |existentials| && existentials[indices[i]] == variables[i]
    {
      indices := [];
      for k := 0 to |variables|
        invariant |indices| == k
        invariant forall i :: 0 <= i < k ==> indices[i] < |existentials| && existentials[indices[i]] == variables[i]
      {
        assert variables[k] in variables;
        var index: nat := 0;
        while existentials[index] != variables[k]
          invariant index < |existentials| && variables[k] in existentials[index..]
          decreases |existentials| - index
        {
          index := index + 1;
        }
        indices := indices + [index];
      }
    }

    /** Query both signs of one variable with all other equalities switched on; the assumptions come back
        as they were. A switch is taken out by moving the last assumption into its place. */
    method TryVariable(ghost q: Formula, index: nat, ghost found: seq<int>, assumptions: seq<int>, unsat: Refuter)
      returns (literal: int, restored: seq<int>, ghost first: seq<int>, ghost second: seq<int>)
      requires Valid(q) && Refutes(formula, unsat) && index < |existentials| && OverVars(found, q.deps.Keys)
      requires assumptions == switches + found
      ensures restored == assumptions
      ensures Query(first, switches, index, found, existentials[index], renamed[index])
      ensures Query(second, switches, index, found, -existentials[index], -renamed[index])
      ensures literal == if unsat(first) then existentials[index] else if unsat(second) then -existentials[index] else 0
      ensures literal != 0 ==> Abs(literal) == existentials[index] && Unate(matrix, found, literal)
      ensures literal == 0 && Exhausts(formula, unsat) ==> Undecided(matrix, found, existentials[index])
    {
      hide SearchFormula, Refutes, Exhausts, Fresh, Unate, Query, OverVars;
      FreshNames(q, existentials, renamed, switches, this.first);
      var variable := existentials[index];
      var deactivated := switches[index];
      restored := assumptions[index := assumptions[|assumptions| - 1]];
      restored := restored[..|restored| - 1];
      QueryBuilt(switches, index, found, restored, variable, renamed[index]);
      QueryBuilt(switches, index, found, restored, -variable, -renamed[index]);
      first, second := restored + [-variable, renamed[index]], restored + [variable, -renamed[index]];
      literal := 0;
      var refuted := CheckUnateLiteral(-variable, renamed[index], restored, unsat);
      if refuted {
        literal := variable;
        RefutedQuery(q, existentials, renamed, switches, this.first, renaming, unsat, formula, first, index, found, variable);
      } else {
        refuted := CheckUnateLiteral(variable, -renamed[index], restored, unsat);
        if refuted {
          literal := -variable;
          RefutedQuery(q, existentials, renamed, switches, this.first, renaming, unsat, formula, second, index, found, -variable);
        } else if Exhausts(formula, unsat) {
          UnateQuery(q, existentials, renamed, switches, this.first, renaming, unsat, formula, first, index, found, variable);
          UnateQuery(q, existentials, renamed, switches, this.first, renaming, unsat, formula, second, index, found, -variable);
        }
      }
      restored := restored + [if index < |restored| then restored[index] else deactivated];
      restored := restored[index := deactivated];
    }

    /** One pass over the variables that are still open; if it finds nothing, a solver without limits shows that
        none of them is unate. */
    method Round(ghost q: Formula, ghost variables: seq<int>, indices0: seq<nat>, found0: seq<int>, clauses0: seq<Clause>,
                 unsat: Refuter)
      returns (indices: seq<nat>, found: seq<int>, clauses: seq<Clause>)
      requires Valid(q) && Refutes(formula, unsat) && UnateChain(q, found0)
      requires Unsettled(existentials, indices0, variables, found0) && Units(clauses0, found0)
      requires Accounted(existentials, indices0, variables, found0)
      modifies `unateClauses
      ensures Valid(q) && UnateChain(q, found) && found0 <= found && |indices| + |found| == |indices0| + |found0|
      ensures Unsettled(existentials, indices, variables, found) && Units(clauses, found)
      ensures Accounted(existentials, indices, variables, found)
      ensures clauses0 <= clauses && unateClauses == old(unateClauses) + clauses[|clauses0|..]
      ensures Exhausts(formula, unsat) && found == found0 ==> NoneUnate(matrix, existentials, indices, |indices|, found)
    {
      hide UnateChain, SearchFormula, Refutes, Exhausts, Fresh, Unate, Unsettled, Query, Accounted, Undecided;
      indices, found, clauses := indices0, found0, clauses0;
      var last := |indices|;
      var assumptions := switches;
      assumptions := assumptions + found;
      var i := 0;
      while i < last
        invariant i <= last == |indices| && |indices| + |found| == |indices0| + |found0|
        invariant Valid(q) && UnateChain(q, found) && found0 <= found && assumptions == switches + found
        invariant Unsettled(existentials, indices, variables, found) && Units(clauses, found)
        invariant Accounted(existentials, indices, variables, found)
        invariant clauses0 <= clauses && unateClauses == old(unateClauses) + clauses[|clauses0|..]
        invariant Exhausts(formula, unsat) && found == found0 ==> NoneUnate(matrix, existentials, indices, i, found)
        decreases last - i
      {
        var index := indices[i];
        ChainVars(q, found);
        UnsettledIndex(existentials, indices, variables, found, i);
        var literal, restored, _, _ := TryVariable(q, index, found, assumptions, unsat);
        assumptions := restored;
        if literal == 0 {
          i := i + 1;
        } else {
          FreshNames(q, existentials, renamed, switches, first);
          Settle(q, existentials, indices, variables, found, i, literal);
          SettleAccounted(existentials, indices, variables, found, i, literal);
          unateClauses := unateClauses + [[literal]];
          clauses := clauses + [[literal]];
          indices := indices[i := indices[|indices| - 1]];
          indices := indices[..|indices| - 1];
          found := found + [literal];
          assumptions := assumptions + [literal];
          last := last - 1;
        }
      }
    }

    /** Rounds until one finds nothing: a list of literals that can be fixed one after the other. */
    method FindUnates(ghost q: Formula, variables: seq<int>, unsat: Refuter) returns (clauses: seq<Clause>, found: seq<int>)
      requires Valid(q) && Refutes(formula, unsat)
      requires (forall v :: v in variables ==> v in q.deps.Keys)
      requires forall i, j :: 0 <= i < j < |variables| ==> variables[i] != variables[j]
      modifies `unateClauses
      ensures Valid(q) && UnateChain(q, found) && Units(clauses, found)
      ensures forall s :: Winning(q, s) ==> Winning(q, Fixed(s, found))
      ensures Exhausts(formula, unsat) ==>
                forall k :: 0 <= k < |variables| ==> Settled(found, variables[k]) || Undecided(matrix, found, variables[k])
      ensures unateClauses == old(unateClauses) + clauses
    {
      hide UnateChain, SearchFormula, Refutes, Exhausts, Fresh, Unsettled, Winning, Accounted, NoneUnate;
      clauses, found := [], [];
      FreshNames(q, existentials, renamed, switches, first);
      var indices := Positions(variables);
      EmptyChain(q, existentials, indices, variables);
      AllOpen(existentials, indices, variables);
      var again := true;
      while again
        invariant Valid(q) && UnateChain(q, found) && Units(clauses, found)
        invariant Unsettled(existentials, indices, variables, found) && Accounted(existentials, indices, variables, found)
        invariant unateClauses == old(unateClauses) + clauses
        invariant !again && Exhausts(formula, unsat) ==> NoneUnate(matrix, existentials, indices, |indices|, found)
        decreases |indices| + (if again then 1 else 0)
      {
        var oldLast := |indices|;
        ghost var before := clauses;
        ghost var known := found;
        indices, found, clauses := Round(q, variables, indices, found, clauses, unsat);
        assert clauses == before + clauses[|before|..];
        again := oldLast != |indices|;
        assert !again ==> found == known;
      }
      if Exhausts(formula, unsat) {
        NothingLeft(matrix, existentials, indices, variables, found);
      }
      FreshWellFormed(q, existentials, renamed, switches, first);
      forall s | Winning(q, s) ensures Winning(q, Fixed(s, found)) { FixedWins(q, s, found); }
    }
  }
}
