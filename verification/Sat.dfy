/** Propositional literals, clauses and models, as the SAT engine sees them. */
module Sat {

  datatype Lit = Lit(v: nat, neg: bool) {
    function Not(): Lit { Lit(v, !neg) }
  }

  type Clause = seq<Lit>

  /** A total truth assignment. */
  type Model = nat -> bool

  predicate LitTrue(m: Model, l: Lit) { m(l.v) != l.neg }

  ghost predicate ClauseTrue(m: Model, c: Clause) {
    exists l :: l in c && LitTrue(m, l)
  }

  ghost predicate FormulaTrue(m: Model, f: seq<Clause>) {
    forall c :: c in f ==> ClauseTrue(m, c)
  }

  /** No variable occurs twice: neither a repeated nor a complementary literal. */
  ghost predicate DistinctVars(c: Clause) {
    forall i, j :: 0 <= i < j < |c| ==> c[i].v != c[j].v
  }

  ghost predicate SameLits(c: Clause, d: Clause) {
    |c| == |d| && forall l :: l in c <==> l in d
  }

  /** Distinct variables below n: there are at most n of them. */
  lemma DistinctVarsBound(c: Clause, n: nat)
    requires DistinctVars(c) && forall i :: 0 <= i < |c| ==> c[i].v < n
    ensures |c| <= n
  {
    if n == 0 {
      assert |c| > 0 ==> c[0].v < n;
    } else if i :| 0 <= i < |c| && c[i].v == n - 1 {
      DistinctVarsBound(c[..i] + c[i + 1..], n - 1);
    } else {
      DistinctVarsBound(c, n - 1);
    }
  }
}
