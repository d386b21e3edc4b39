/** The circuit and the clauses written for a variable define the same function. */
module SkolemAgreement {
  import opened Aig
  import opened Dqbf
  import opened SkolemRules
  import opened SkolemCircuits
  import opened SkolemClauses

  /** The valuations agree on the variables that the rules look at. */
  ghost predicate SameAround(v: Valuation, w: Valuation, variable: int, last: int) {
    forall x :: x <= last && x != variable ==> v(x) == w(x)
  }

  /** Whatever the other variables are, the clauses leave the variable the one value that the circuit computes. */
  lemma CircuitAndClausesAgree(r: Rules, arbs: map<int, bool>, last: int, before: seq<And>, last0: int, after: seq<And>,
                               f: seq<Clause>, u0: int, val: Valuation)
    requires GoodRules(r, arbs, last) && last <= last0 && last < u0
    requires Defines(before, last0, after, r, arbs) && Encodes(f, u0, r, arbs)
    requires NoClash(arbs, Computed(val, before), r) && TreeDecides(Computed(val, before), r)
    ensures forall w: Valuation :: AllSat(w, f) && SameAround(Computed(val, before), w, r.variable, last) ==>
              w(r.variable) == Computed(val, after)(r.variable)
    ensures exists w: Valuation ::
              AllSat(w, f) && SameBelow(With(Computed(val, before), r.variable, Computed(val, after)(r.variable)), w, u0)
  {
    var v, value := Computed(val, before), Computed(val, after)(r.variable);
    assert value == SkolemValue(arbs, v, r);
    hide Computed, SkolemValue, NoClash, TreeDecides, GoodRules, AllSat;
    forall w: Valuation | AllSat(w, f) && SameAround(v, w, r.variable, last) ensures w(r.variable) == value {
      RulesSame(r, arbs, last, v, w);
    }
    var v2 := With(v, r.variable, value);
    RulesSame(r, arbs, last, v, v2);
    assert Right(v2, r, arbs);
  }
}
