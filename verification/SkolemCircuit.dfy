/** Circuits for Skolem functions given by forcing clauses and defaults. */
module SkolemCircuits {
  import opened Dqbf
  import opened SkolemRules
  import opened Aig

  const FALSE: nat := 0
  const TRUE: nat := 1

  /** The literal of a signed variable. */
  function Representation(x: int): nat
    requires x != 0
  {
    if x > 0 then 2 * x else -2 * x + 1
  }

  function Negation(lit: nat): nat { if lit % 2 == 0 then lit + 1 else lit - 1 }

  ghost predicate LitHolds(val: Valuation, lit: nat) {
    if lit < 2 then lit == TRUE else val(Var(lit)) != Negative(lit)
  }

  ghost function With(val: Valuation, v: int, b: bool): Valuation {
    x => if x == v then b else val(x)
  }

  /** The gates computed in order. */
  ghost function Computed(val: Valuation, gates: seq<And>): Valuation {
    if gates == [] then val
    else
      var w, g := Computed(val, gates[..|gates| - 1]), gates[|gates| - 1];
      With(w, Var(g.lhs), LitHolds(w, g.rhs0) && LitHolds(w, g.rhs1))
  }

  /** The first gates stay, and nothing up to variable `last` changes. */
  ghost predicate Grown(before: seq<And>, last: int, after: seq<And>, last2: int) {
    && last <= last2
    && forall val: Valuation, v :: v <= last ==> Computed(val, after)(v) == Computed(val, before)(v)
  }

  lemma ComputedNext(val: Valuation, gates: seq<And>, g: And)
    ensures var w := Computed(val, gates);
            Computed(val, gates + [g]) == With(w, Var(g.lhs), LitHolds(w, g.rhs0) && LitHolds(w, g.rhs1))
  {
    assert (gates + [g])[..|gates|] == gates;
  }

  lemma GrownChain(a: seq<And>, la: int, b: seq<And>, lb: int, c: seq<And>, lc: int)
    requires Grown(a, la, b, lb) && Grown(b, lb, c, lc)
    ensures Grown(a, la, c, lc)
  {
    hide Computed;
  }

  lemma GrownOne(gates: seq<And>, last: int, g: And)
    requires Var(g.lhs) == last + 1
    ensures Grown(gates, last, gates + [g], last + 1)
  {
    forall val: Valuation, v | v <= last ensures Computed(val, gates + [g])(v) == Computed(val, gates)(v) {
      ComputedNext(val, gates, g);
    }
  }

  lemma RepresentationHolds(val: Valuation, x: int)
    requires x != 0
    ensures LitHolds(val, Representation(x)) <==> True(val, x)
    ensures Var(Representation(x)) == Abs(x)
  {}

  lemma NegationHolds(val: Valuation, lit: nat)
    ensures LitHolds(val, Negation(lit)) != LitHolds(val, lit) && Var(Negation(lit)) == Var(lit)
  {}

  /** lit is true exactly when some clause fires, with the arbiter values put in. */
  ghost predicate SaysFires(gates: seq<And>, lit: nat, clauses: seq<Clause>, arbs: map<int, bool>) {
    forall val: Valuation ::
      LitHolds(Computed(val, gates), lit) <==> SomeFires(Under(arbs, Computed(val, gates)), clauses)
  }

  /** The literals so far are all false exactly when x is true. */
  ghost predicate AllFalse(gates: seq<And>, x: int, clause: Clause) {
    forall val: Valuation :: True(Computed(val, gates), x) <==> !Sat(Computed(val, gates), clause)
  }

  lemma OneLiteral(gates: seq<And>, clause: Clause)
    requires |clause| >= 1 && clause[0] != 0
    ensures AllFalse(gates, -clause[0], clause[..1])
  {
    assert clause[..1] == [clause[0]];
    forall val: Valuation ensures True(Computed(val, gates), -clause[0]) <==> !Sat(Computed(val, gates), clause[..1]) {
      UnitMeans(Computed(val, gates), clause[0]);
    }
  }

  /** One more literal: the new gate joins what was there with its negation. */
  lemma NextLiteral(gates: seq<And>, last: int, x: int, clause: Clause, i: nat, variable: int, bound: int)
    requires i < |clause| && AllFalse(gates, x, clause[..i]) && x != 0 && Abs(x) <= last && bound <= last
    requires Speaks(clause, variable, bound) && last >= 0
    ensures clause[i] != 0
    ensures var g := And(Representation(last + 1), Representation(x), Representation(-clause[i]));
            AllFalse(gates + [g], last + 1, clause[..i + 1])
  {
    var g := And(Representation(last + 1), Representation(x), Representation(-clause[i]));
    assert clause[..i + 1] == clause[..i] + [clause[i]];
    forall val: Valuation
      ensures True(Computed(val, gates + [g]), last + 1) <==> !Sat(Computed(val, gates + [g]), clause[..i + 1])
    {
      NextValue(val, gates, last, x, clause, i, variable, bound);
    }
  }

  lemma NextValue(val: Valuation, gates: seq<And>, last: int, x: int, clause: Clause, i: nat, variable: int, bound: int)
    requires i < |clause| && (True(Computed(val, gates), x) <==> !Sat(Computed(val, gates), clause[..i]))
    requires x != 0 && Abs(x) <= last && bound <= last && last >= 0
    requires Speaks(clause, variable, bound) && clause[i] != 0
    ensures var g := And(Representation(last + 1), Representation(x), Representation(-clause[i]));
            True(Computed(val, gates + [g]), last + 1) <==> !Sat(Computed(val, gates + [g]), clause[..i + 1])
  {
    var g := And(Representation(last + 1), Representation(x), Representation(-clause[i]));
    var w := Computed(val, gates);
    var w2 := Computed(val, gates + [g]);
    ComputedNext(val, gates, g);
    hide Computed;
    RepresentationHolds(w, x);
    RepresentationHolds(w, -clause[i]);
    assert clause[..i + 1] == clause[..i] + [clause[i]];
    assert Speaks(clause[..i + 1], variable, bound);
    hide LitHolds, Representation;
    SpeaksSame(clause[..i + 1], variable, bound, w, w2);
    SatConcat(w, clause[..i], [clause[i]]);
    UnitMeans(w, clause[i]);
  }

  // ------------------------------------------------------- several clauses

  /** fires[i] is true exactly when clause i fires. */
  ghost predicate EachFires(gates: seq<And>, fires: seq<int>, clauses: seq<Clause>) {
    |fires| == |clauses| && forall i :: 0 <= i < |fires| ==> AllFalse(gates, fires[i], clauses[i])
  }

  lemma AllFalseGrown(a: seq<And>, last: int, b: seq<And>, last2: int, x: int, clause: Clause, variable: int)
    requires Grown(a, last, b, last2) && AllFalse(a, x, clause) && Speaks(clause, variable, last) && Abs(x) <= last
    ensures AllFalse(b, x, clause)
  {
    forall val: Valuation ensures True(Computed(val, b), x) <==> !Sat(Computed(val, b), clause) {
      SpeaksSame(clause, variable, last, Computed(val, a), Computed(val, b));
    }
  }

  /** The clauses that are left when arbiters have their values. */
  function Remaining(clauses: seq<Clause>, arbs: map<int, bool>): seq<Clause> {
    if clauses == [] then []
    else
      var c := clauses[|clauses| - 1];
      Remaining(clauses[..|clauses| - 1], arbs) + if AssignedTrue(c, arbs) then [] else [Unassigned(c, arbs)]
  }

  lemma {:induction false} RemainingFires(clauses: seq<Clause>, arbs: map<int, bool>, val: Valuation)
    ensures SomeFires(val, Remaining(clauses, arbs)) <==> SomeFires(Under(arbs, val), clauses)
  {
    if clauses != [] {
      var n := |clauses| - 1;
      var c := clauses[n];
      RemainingFires(clauses[..n], arbs, val);
      RemovedFires(c, arbs, val);
      hide Sat, Under, AssignedTrue, Unassigned;
      assert clauses == clauses[..n] + [c];
      FiresConcat(Under(arbs, val), clauses[..n], [c]);
      FiresConcat(val, Remaining(clauses[..n], arbs), if AssignedTrue(c, arbs) then [] else [Unassigned(c, arbs)]);
      FiresOne(Under(arbs, val), c);
      FiresOne(val, Unassigned(c, arbs));
    }
  }

  lemma {:induction false} RemainingSpeak(clauses: seq<Clause>, arbs: map<int, bool>, variable: int, last: int)
    requires AllSpeak(clauses, variable, last)
    ensures AllSpeak(Remaining(clauses, arbs), variable, last)
  {
    hide Speaks;
    if clauses != [] {
      RemainingSpeak(clauses[..|clauses| - 1], arbs, variable, last);
      UnassignedSpeaks(clauses[|clauses| - 1], arbs, variable, last);
    }
  }

  ghost predicate HoldsWhenFires(gates: seq<And>, lit: nat, bodies: seq<Clause>) {
    forall val: Valuation :: LitHolds(Computed(val, gates), lit) <==> SomeFires(Computed(val, gates), bodies)
  }

  /** The list of literals that say when a clause fires, negated together. */
  lemma FiresTogether(gates: seq<And>, fires: seq<int>, clauses: seq<Clause>, all: int)
    requires EachFires(gates, fires, clauses) && all != 0
    requires AllFalse(gates, all, fires)
    ensures HoldsWhenFires(gates, Representation(-all), clauses)
  {
    forall val: Valuation
      ensures LitHolds(Computed(val, gates), Representation(-all)) <==> SomeFires(Computed(val, gates), clauses)
    {
      var w := Computed(val, gates);
      RepresentationHolds(w, -all);
      assert True(w, all) <==> !Sat(w, fires);
      forall i | 0 <= i < |fires| ensures True(w, fires[i]) <==> !Sat(w, clauses[i]) {
        assert AllFalse(gates, fires[i], clauses[i]);
      }
    }
  }

  lemma RemainingSays(gates: seq<And>, lit: nat, clauses: seq<Clause>, arbs: map<int, bool>)
    requires HoldsWhenFires(gates, lit, Remaining(clauses, arbs))
    ensures SaysFires(gates, lit, clauses, arbs)
  {
    hide LitHolds, SomeFires, Remaining;
    forall val: Valuation
      ensures LitHolds(Computed(val, gates), lit) <==> SomeFires(Under(arbs, Computed(val, gates)), clauses)
    {
      RemainingFires(clauses, arbs, Computed(val, gates));
    }
  }

  ghost predicate HasEmpty(bodies: seq<Clause>) {
    exists i :: 0 <= i < |bodies| && bodies[i] == []
  }

  lemma EmptyFires(gates: seq<And>, bodies: seq<Clause>)
    requires HasEmpty(bodies)
    ensures HoldsWhenFires(gates, TRUE, bodies)
  {
    var i :| 0 <= i < |bodies| && bodies[i] == [];
    forall val: Valuation ensures SomeFires(val, bodies) { assert !Sat(val, bodies[i]); }
  }

  lemma NoneFires(gates: seq<And>)
    ensures HoldsWhenFires(gates, FALSE, [])
  {}

  /** out is true exactly when both inputs are. */
  ghost predicate Both(gates: seq<And>, in1: nat, in2: nat, out: nat) {
    forall val: Valuation :: LitHolds(Computed(val, gates), out)
                             == (LitHolds(Computed(val, gates), in1) && LitHolds(Computed(val, gates), in2))
  }

  lemma LitSame(v: Valuation, w: Valuation, lit: nat, last: int)
    requires Var(lit) <= last && forall x :: x <= last ==> v(x) == w(x)
    ensures LitHolds(v, lit) == LitHolds(w, lit)
  {}

  lemma BothComputed(gates: seq<And>, last: int, in1: nat, in2: nat)
    requires Var(in1) <= last && Var(in2) <= last && last >= 0
    ensures var out := Representation(last + 1); Both(gates + [And(out, in1, in2)], in1, in2, out)
  {
    var out := Representation(last + 1);
    forall val: Valuation
      ensures var w := Computed(val, gates + [And(out, in1, in2)]);
              LitHolds(w, out) == (LitHolds(w, in1) && LitHolds(w, in2))
    {
      ComputedNext(val, gates, And(out, in1, in2));
      var v, w := Computed(val, gates), Computed(val, gates + [And(out, in1, in2)]);
      LitSame(v, w, in1, last);
      LitSame(v, w, in2, last);
      RepresentationHolds(w, last + 1);
    }
  }

  lemma BothGrown(a: seq<And>, la: int, b: seq<And>, lb: int, in1: nat, in2: nat, out: nat)
    requires Grown(a, la, b, lb) && Both(a, in1, in2, out) && Var(in1) <= la && Var(in2) <= la && Var(out) <= la
    ensures Both(b, in1, in2, out)
  {
    forall val: Valuation
      ensures LitHolds(Computed(val, b), out) == (LitHolds(Computed(val, b), in1) && LitHolds(Computed(val, b), in2))
    {
      LitSame(Computed(val, a), Computed(val, b), in1, la);
      LitSame(Computed(val, a), Computed(val, b), in2, la);
      LitSame(Computed(val, a), Computed(val, b), out, la);
    }
  }

  lemma NegationVar(lit: nat)
    ensures Var(Negation(lit)) == Var(lit)
  {}

  /** What was said about clauses over old variables stays true. */
  lemma SaysGrown(a: seq<And>, la: int, b: seq<And>, lb: int, lit: nat, clauses: seq<Clause>, arbs: map<int, bool>,
                  variable: int, last: int)
    requires Grown(a, la, b, lb) && SaysFires(a, lit, clauses, arbs) && Var(lit) <= la
    requires AllSpeak(clauses, variable, last) && last <= la
    ensures SaysFires(b, lit, clauses, arbs)
  {
    forall val: Valuation
      ensures LitHolds(Computed(val, b), lit) <==> SomeFires(Under(arbs, Computed(val, b)), clauses)
    {
      var v, w := Computed(val, a), Computed(val, b);
      LitSame(v, w, lit, la);
      FiresSame(clauses, variable, last, Under(arbs, v), Under(arbs, w));
    }
  }

  // ------------------------------------------------------- the function of one variable

  /** The gates give the variable its Skolem value and leave the others as they were. */
  ghost predicate Defines(before: seq<And>, last: int, after: seq<And>, r: Rules, arbs: map<int, bool>) {
    forall val: Valuation ::
      var w, w2 := Computed(val, before), Computed(val, after);
      && (NoClash(arbs, w, r) && TreeDecides(w, r) ==> w2(r.variable) == SkolemValue(arbs, w, r))
      && forall v :: v <= last && v != r.variable ==> w2(v) == w(v)
  }

  lemma GoodParts(r: Rules, arbs: map<int, bool>, last: int)
    requires GoodRules(r, arbs, last)
    ensures 0 < r.variable <= last && AllSpeak(r.positive, r.variable, last) && AllSpeak(r.negative, r.variable, last)
    ensures AllSpeak(Bodies(r.defaults, true), r.variable, last) && AllSpeak(Bodies(r.defaults, false), r.variable, last)
    ensures forall i :: 0 <= i < |r.defaults| ==> r.defaults[i] != []
  {
    BodiesSpeak(r.defaults, true, r.variable, last, arbs);
    BodiesSpeak(r.defaults, false, r.variable, last, arbs);
  }

  /** If the value of the last gate is right under the valuation before it, the variable is defined. */
  lemma LastGate(start: seq<And>, last0: int, gates: seq<And>, last: int, r: Rules, arbs: map<int, bool>, g: And)
    requires Grown(start, last0, gates, last) && GoodRules(r, arbs, last0) && Var(g.lhs) == r.variable
    requires forall val: Valuation :: NoClash(arbs, Computed(val, gates), r) && TreeDecides(Computed(val, gates), r) ==>
               (LitHolds(Computed(val, gates), g.rhs0) && LitHolds(Computed(val, gates), g.rhs1))
               == SkolemValue(arbs, Computed(val, gates), r)
    ensures Defines(start, last0, gates + [g], r, arbs)
  {
    forall val: Valuation
      ensures var w, w2 := Computed(val, start), Computed(val, gates + [g]);
              && (NoClash(arbs, w, r) && TreeDecides(w, r) ==> w2(r.variable) == SkolemValue(arbs, w, r))
              && forall v :: v <= last0 && v != r.variable ==> w2(v) == w(v)
    {
      var w, w1 := Computed(val, start), Computed(val, gates);
      assert forall v :: v <= last0 ==> w1(v) == w(v);
      ComputedNext(val, gates, g);
      hide Computed, SkolemValue, NoClash, TreeDecides, GoodRules, LitHolds;
      RulesSame(r, arbs, last0, w, w1);
    }
  }

  /** A constant default: the variable differs from it only if a clause against it fires. */
  lemma ConstantGate(start: seq<And>, last0: int, gates: seq<And>, last: int, r: Rules, arbs: map<int, bool>, forced: nat)
    requires Grown(start, last0, gates, last) && GoodRules(r, arbs, last0) && |r.defaults| <= 1
    ensures (r.defaults == [] || r.defaults[0] != [])
    ensures var positive := r.defaults == [] || r.defaults[0][0] > 0;
            SaysFires(gates, forced, if positive then r.negative else r.positive, arbs) ==>
              Defines(start, last0,
                      gates + [And(Representation(r.variable), if positive then Negation(forced) else forced, TRUE)], r, arbs)
  {
    var positive := r.defaults == [] || r.defaults[0][0] > 0;
    if SaysFires(gates, forced, if positive then r.negative else r.positive, arbs) {
      var g := And(Representation(r.variable), if positive then Negation(forced) else forced, TRUE);
      RepresentationHolds(_ => true, r.variable);
      forall val: Valuation | NoClash(arbs, Computed(val, gates), r)
        ensures (LitHolds(Computed(val, gates), g.rhs0) && LitHolds(Computed(val, gates), g.rhs1))
                == SkolemValue(arbs, Computed(val, gates), r)
      {
        NegationHolds(Computed(val, gates), forced);
      }
      LastGate(start, last0, gates, last, r, arbs, g);
    }
  }

  /** Clauses that always fire leave a constant. */
  lemma ForcedGate(start: seq<And>, last0: int, gates: seq<And>, last: int, r: Rules, arbs: map<int, bool>, value: bool)
    requires Grown(start, last0, gates, last) && GoodRules(r, arbs, last0)
    requires SaysFires(gates, TRUE, if value then r.positive else r.negative, arbs)
    ensures var lit := if value then TRUE else FALSE;
            Defines(start, last0, gates + [And(Representation(r.variable), lit, lit)], r, arbs)
  {
    var lit := if value then TRUE else FALSE;
    var g := And(Representation(r.variable), lit, lit);
    RepresentationHolds(_ => true, r.variable);
    forall val: Valuation | NoClash(arbs, Computed(val, gates), r)
      ensures (LitHolds(Computed(val, gates), g.rhs0) && LitHolds(Computed(val, gates), g.rhs1))
              == SkolemValue(arbs, Computed(val, gates), r)
    {
      assert LitHolds(Computed(val, gates), TRUE);
    }
    LastGate(start, last0, gates, last, r, arbs, g);
  }

  /** Both forms of the tree give the Skolem value. */
  lemma TreeDefines(start: seq<And>, last0: int, gates: seq<And>, last: int, r: Rules, arbs: map<int, bool>,
                    positiveFires: nat, negativeFires: nat, sign: bool, defaultFires: nat, applicable: nat, neither: nat)
    requires Grown(start, last0, gates, last) && GoodRules(r, arbs, last0) && |r.defaults| >= 2
    requires SaysFires(gates, positiveFires, r.positive, arbs) && SaysFires(gates, negativeFires, r.negative, arbs)
    requires SaysFires(gates, defaultFires, Bodies(r.defaults, sign), arbs)
    requires Both(gates, Negation(if sign then negativeFires else positiveFires), defaultFires, applicable)
    requires Both(gates, Negation(if sign then positiveFires else negativeFires), Negation(applicable), neither)
    ensures Defines(start, last0,
                    gates + [And(Representation(r.variable), if sign then Negation(neither) else neither, TRUE)], r, arbs)
  {
    var g := And(Representation(r.variable), if sign then Negation(neither) else neither, TRUE);
    RepresentationHolds(_ => true, r.variable);
    BodiesSpeak(r.defaults, sign, r.variable, last0, arbs);
    forall val: Valuation | NoClash(arbs, Computed(val, gates), r) && TreeDecides(Computed(val, gates), r)
      ensures (LitHolds(Computed(val, gates), g.rhs0) && LitHolds(Computed(val, gates), g.rhs1))
              == SkolemValue(arbs, Computed(val, gates), r)
    {
      var w := Computed(val, gates);
      FreeFires(Bodies(r.defaults, sign), arbs, w);
      NegationHolds(w, positiveFires);
      NegationHolds(w, negativeFires);
      NegationHolds(w, applicable);
      NegationHolds(w, neither);
      TreeValue(w, gates, val, r, arbs, positiveFires, negativeFires, sign, defaultFires, applicable, neither);
    }
    LastGate(start, last0, gates, last, r, arbs, g);
  }

  lemma TreeValue(w: Valuation, gates: seq<And>, val: Valuation, r: Rules, arbs: map<int, bool>, positiveFires: nat,
                  negativeFires: nat, sign: bool, defaultFires: nat, applicable: nat, neither: nat)
    requires w == Computed(val, gates) && |r.defaults| >= 2 && NoClash(arbs, w, r) && TreeDecides(w, r)
    requires SaysFires(gates, positiveFires, r.positive, arbs) && SaysFires(gates, negativeFires, r.negative, arbs)
    requires LitHolds(w, defaultFires) <==> SomeFires(w, Bodies(r.defaults, sign))
    requires Both(gates, Negation(if sign then negativeFires else positiveFires), defaultFires, applicable)
    requires Both(gates, Negation(if sign then positiveFires else negativeFires), Negation(applicable), neither)
    ensures LitHolds(w, if sign then Negation(neither) else neither) == SkolemValue(arbs, w, r)
  {
    hide Computed, SomeFires, Under, Bodies, LitHolds, Negation;
    NegationHolds(w, positiveFires);
    NegationHolds(w, negativeFires);
    NegationHolds(w, applicable);
    NegationHolds(w, neither);
  }

  class AigerBuilder {
    var gates: seq<And>
    var lastUsed: int

    method AddAdder(in1: int, in2: int, out: int)
      requires in1 != 0 && in2 != 0 && out != 0
      modifies `gates
      ensures gates == old(gates) + [And(Representation(out), Representation(in1), Representation(in2))]
    {
      gates := gates + [And(Representation(out), Representation(in1), Representation(in2))];
    }

    /** A literal that is true when all literals of the clause are false. */
    method ClauseIsActive(clause: Clause, ghost variable: int) returns (r: int)
      requires clause != [] && Speaks(clause, variable, lastUsed) && lastUsed >= 0
      modifies this
      ensures Grown(old(gates), old(lastUsed), gates, lastUsed)
      ensures r != 0 && Abs(r) <= lastUsed && AllFalse(gates, r, clause) && (Abs(r) != variable || variable > old(lastUsed))
      ensures |gates| == |old(gates)| + |clause| - 1 && lastUsed == old(lastUsed) + |clause| - 1
    {
      hide Grown, AllFalse, Speaks;
      ghost var start, last0 := gates, lastUsed;
      FirstSpeaks(clause, variable, lastUsed);
      OneLiteral(gates, clause);
      GrownSelf(gates, lastUsed);
      if |clause| == 1 {
        assert clause[..1] == clause;
        r := -clause[0];
        return;
      }
      var active := lastUsed + 1;
      lastUsed := lastUsed + 1;
      var x := -clause[0];
      for i := 1 to |clause|
        invariant lastUsed == active == last0 + i && |gates| == |start| + i - 1
        invariant lastUsed == active > last0 && x != 0 && Abs(x) < active && (i > 1 ==> x == active - 1 > last0)
        invariant Grown(start, last0, gates, active - 1) && AllFalse(gates, x, clause[..i])
      {
        NextLiteral(gates, active - 1, x, clause, i, variable, last0);
        GrownOne(gates, active - 1, And(Representation(active), Representation(x), Representation(-clause[i])));
        ghost var was := gates;
        AddAdder(x, -clause[i], active);
        GrownChain(start, last0, was, active - 1, gates, active);
        x := active;
        lastUsed := lastUsed + 1;
        active := lastUsed;
      }
      assert clause[..|clause|] == clause;
      lastUsed := lastUsed - 1;
      r := lastUsed;
    }

    /** A literal that is true when one of the clauses fires under the arbiter values. */
    method ClausesAreActive(clauses: seq<Clause>, arbs: map<int, bool>, ghost variable: int) returns (lit: nat)
      requires AllSpeak(clauses, variable, lastUsed) && 0 < variable <= lastUsed
      modifies this
      ensures Grown(old(gates), old(lastUsed), gates, lastUsed)
      ensures Var(lit) <= lastUsed && SaysFires(gates, lit, clauses, arbs) && Var(lit) != variable
    {
      hide Grown, AllFalse, Speaks, AllSpeak, SaysFires, HoldsWhenFires, Remaining, EachFires, AssignedTrue, Unassigned;
      ghost var start, last0 := gates, lastUsed;
      GrownSelf(gates, lastUsed);
      var reduced := [];
      RemainingNone(arbs);
      assert clauses[..0] == [];
      for i := 0 to |clauses|
        invariant reduced == Remaining(clauses[..i], arbs) && forall k :: 0 <= k < |reduced| ==> reduced[k] != []
        modifies {}
      {
        RemainingNext(clauses, arbs, i);
        var active, rest := RemoveArbiters(clauses[i], arbs);
        if active {
          if rest == [] {
            EmptyStays(clauses, arbs, i);
            EmptyFires(gates, Remaining(clauses, arbs));
            RemainingSays(gates, TRUE, clauses, arbs);
            return TRUE;
          }
          reduced := reduced + [rest];
        }
      }
      assert clauses[..|clauses|] == clauses;
      RemainingSpeak(clauses, arbs, variable, lastUsed);
      if reduced == [] {
        NoneFires(gates);
        RemainingSays(gates, FALSE, clauses, arbs);
        return FALSE;
      }
      if |reduced| == 1 {
        SpeakAt(reduced, variable, lastUsed, 0);
        var r := ClauseIsActive(reduced[0], variable);
        SingleFires(gates, r, reduced);
        lit := Representation(r);
        RemainingSays(gates, lit, clauses, arbs);
        return;
      }
      var fires := ClausesFire(reduced, variable);
      ghost var mid, last1 := gates, lastUsed;
      GrownLast(start, last0, mid, last1);
      SpeakMore(reduced, variable, last0, last1);
      EachSize(mid, fires, reduced);
      var all := ClauseIsActive(fires, variable);
      GrownChain(start, last0, mid, last1, gates, lastUsed);
      EachGrown(mid, last1, gates, lastUsed, fires, reduced, variable);
      FiresTogether(gates, fires, reduced, all);
      lit := Representation(-all);
      RemainingSays(gates, lit, clauses, arbs);
    }

    /** For every clause a literal that is true when it fires. */
    method ClausesFire(clauses: seq<Clause>, ghost variable: int) returns (fires: seq<int>)
      requires AllSpeak(clauses, variable, lastUsed) && 0 < variable <= lastUsed
      requires forall k :: 0 <= k < |clauses| ==> clauses[k] != []
      modifies this
      ensures Grown(old(gates), old(lastUsed), gates, lastUsed)
      ensures EachFires(gates, fires, clauses) && Speaks(fires, variable, lastUsed)
    {
      hide Grown, AllFalse, AllSpeak;
      ghost var start, last0 := gates, lastUsed;
      GrownSelf(gates, lastUsed);
      fires := [];
      for i := 0 to |clauses|
        invariant Grown(start, last0, gates, lastUsed) && last0 <= lastUsed
        invariant EachFires(gates, fires, clauses[..i]) && Speaks(fires, variable, lastUsed)
      {
        ghost var was, last1 := gates, lastUsed;
        SpeakMore(clauses, variable, last0, last1);
        SpeakAt(clauses, variable, last1, i);
        SpeakPrefix(clauses, variable, last1, i);
        var x := ClauseIsActive(clauses[i], variable);
        GrownChain(start, last0, was, last1, gates, lastUsed);
        GrownLast(was, last1, gates, lastUsed);
        EachGrown(was, last1, gates, lastUsed, fires, clauses[..i], variable);
        fires := fires + [x];
      }
      assert clauses[..|clauses|] == clauses;
    }

    /** Both inputs together; constants need no gate. */
    method Combine(in1: nat, in2: nat) returns (out: nat)
      requires Var(in1) <= lastUsed && Var(in2) <= lastUsed && lastUsed >= 0
      modifies this
      ensures |gates| == |old(gates)| + if Var(in1) == 0 || Var(in2) == 0 then 0 else 1
      ensures Grown(old(gates), old(lastUsed), gates, lastUsed) && Var(out) <= lastUsed && Both(gates, in1, in2, out)
    {
      hide Grown;
      GrownSelf(gates, lastUsed);
      if in1 == FALSE || in2 == FALSE { return FALSE; }
      if in1 == TRUE { return in2; }
      if in2 == TRUE { return in1; }
      GrownOne(gates, lastUsed, And(Representation(lastUsed + 1), in1, in2));
      BothComputed(gates, lastUsed, in1, in2);
      lastUsed := lastUsed + 1;
      out := Representation(lastUsed);
      gates := gates + [And(out, in1, in2)];
    }

    method FilterClauses(clauses: seq<Clause>) returns (positive: seq<Clause>, negative: seq<Clause>)
      requires forall i :: 0 <= i < |clauses| ==> clauses[i] != []
      ensures positive == Bodies(clauses, true) && negative == Bodies(clauses, false)
    {
      positive, negative := [], [];
      for i := 0 to |clauses|
        invariant positive == Bodies(clauses[..i], true) && negative == Bodies(clauses[..i], false)
      {
        assert clauses[..i + 1][..i] == clauses[..i];
        var cl := clauses[i];
        var c := cl[..|cl| - 1];
        if cl[|cl| - 1] > 0 {
          positive := positive + [c];
        } else {
          negative := negative + [c];
        }
      }
      assert clauses[..|clauses|] == clauses;
    }

    /** The gate of the variable: forced values first, then the default. */
    method AddForcingClauses(r: Rules, arbs: map<int, bool>)
      requires GoodRules(r, arbs, lastUsed)
      modifies this
      ensures Defines(old(gates), old(lastUsed), gates, r, arbs) && lastUsed >= old(lastUsed)
    {
      hide Grown, SaysFires, Both, GoodRules, AllSpeak, Defines, GoodDefaults, Bodies;
      ghost var start, last0 := gates, lastUsed;
      GoodParts(r, arbs, lastUsed);
      if |r.defaults| <= 1 {
        var constant := if r.defaults == [] then r.variable else r.defaults[0][0];
        if constant > 0 {
          var forced := ClausesAreActive(r.negative, arbs, r.variable);
          GrownLast(start, last0, gates, lastUsed);
          ConstantGate(start, last0, gates, lastUsed, r, arbs, forced);
          gates := gates + [And(Representation(r.variable), Negation(forced), TRUE)];
        } else {
          var forced := ClausesAreActive(r.positive, arbs, r.variable);
          GrownLast(start, last0, gates, lastUsed);
          ConstantGate(start, last0, gates, lastUsed, r, arbs, forced);
          gates := gates + [And(Representation(r.variable), forced, TRUE)];
        }
        return;
      }
      var positiveFires := ClausesAreActive(r.positive, arbs, r.variable);
      ghost var g1, l1 := gates, lastUsed;
      GrownLast(start, last0, g1, l1);
      if positiveFires == TRUE {
        ForcedGate(start, last0, g1, l1, r, arbs, true);
        gates := gates + [And(Representation(r.variable), TRUE, TRUE)];
        return;
      }
      SpeakMore(r.negative, r.variable, last0, l1);
      var negativeFires := ClausesAreActive(r.negative, arbs, r.variable);
      ghost var g2, l2 := gates, lastUsed;
      GrownChain(start, last0, g1, l1, g2, l2);
      GrownLast(g1, l1, g2, l2);
      if negativeFires == TRUE {
        ForcedGate(start, last0, g2, l2, r, arbs, false);
        gates := gates + [And(Representation(r.variable), FALSE, FALSE)];
        return;
      }
      SaysGrown(g1, l1, g2, l2, positiveFires, r.positive, arbs, r.variable, last0);
      var positiveDefaults, negativeDefaults := FilterClauses(r.defaults);
      var sign := |positiveDefaults| <= |negativeDefaults|;
      TreeGate(r, arbs, positiveFires, negativeFires, if sign then positiveDefaults else negativeDefaults, sign, start, last0);
    }

    /** The tree, by its smaller kind of clauses: `sign` says which. */
    method TreeGate(r: Rules, arbs: map<int, bool>, positiveFires: nat, negativeFires: nat, defaults: seq<Clause>, sign: bool,
                    ghost start: seq<And>, ghost last0: int)
      requires defaults == Bodies(r.defaults, sign)
      requires GoodRules(r, arbs, last0) && |r.defaults| >= 2 && Grown(start, last0, gates, lastUsed) && last0 <= lastUsed
      requires SaysFires(gates, positiveFires, r.positive, arbs) && Var(positiveFires) <= lastUsed
      requires SaysFires(gates, negativeFires, r.negative, arbs) && Var(negativeFires) <= lastUsed
      modifies this
      ensures Defines(start, last0, gates, r, arbs) && lastUsed >= old(lastUsed)
    {
      hide Grown, SaysFires, Both, GoodRules, AllSpeak, Defines, GoodDefaults, Bodies;
      GoodParts(r, arbs, last0);
      ghost var g0, l0 := gates, lastUsed;
      SpeakMore(defaults, r.variable, last0, lastUsed);
      SpeakMore(r.positive, r.variable, last0, lastUsed);
      SpeakMore(r.negative, r.variable, last0, lastUsed);
      var defaultFires := ClausesAreActive(defaults, arbs, r.variable);
      ghost var g1, l1 := gates, lastUsed;
      GrownLast(g0, l0, g1, l1);
      var mine, other := if sign then positiveFires else negativeFires, if sign then negativeFires else positiveFires;
      NegationVar(other);
      var applicable := Combine(Negation(other), defaultFires);
      ghost var g2, l2 := gates, lastUsed;
      GrownLast(g1, l1, g2, l2);
      NegationVar(mine);
      NegationVar(applicable);
      var neither := Combine(Negation(mine), Negation(applicable));
      ghost var g3, l3 := gates, lastUsed;
      GrownLast(g2, l2, g3, l3);
      GrownChain(g0, l0, g1, l1, g2, l2);
      GrownChain(g0, l0, g2, l2, g3, l3);
      GrownChain(g1, l1, g2, l2, g3, l3);
      GrownChain(start, last0, g0, l0, g3, l3);
      SaysGrown(g0, l0, g3, l3, positiveFires, r.positive, arbs, r.variable, last0);
      SaysGrown(g0, l0, g3, l3, negativeFires, r.negative, arbs, r.variable, last0);
      SaysGrown(g1, l1, g3, l3, defaultFires, defaults, arbs, r.variable, last0);
      BothGrown(g2, l2, g3, l3, Negation(other), defaultFires, applicable);
      var value := if sign then Negation(neither) else neither;
      TreeDefines(start, last0, g3, l3, r, arbs, positiveFires, negativeFires, sign, defaultFires, applicable, neither);
      gates := gates + [And(Representation(r.variable), value, TRUE)];
    }

    method RemoveArbiters(clause: Clause, arbs: map<int, bool>) returns (active: bool, rest: Clause)
      ensures active == !AssignedTrue(clause, arbs) && (active ==> rest == Unassigned(clause, arbs))
    {
      rest := [];
      for i := 0 to |clause|
        invariant !AssignedTrue(clause[..i], arbs) && rest == Unassigned(clause[..i], arbs)
      {
        assert clause[..i + 1][..i] == clause[..i];
        var l := clause[i];
        if Abs(l) in arbs {
          if (l > 0) == arbs[Abs(l)] {
            return false, rest;
          }
        } else {
          rest := rest + [l];
        }
      }
      assert clause[..|clause|] == clause;
      active := true;
    }
  }

  lemma GrownSelf(gates: seq<And>, last: int)
    ensures Grown(gates, last, gates, last)
  {}

  lemma GrownLast(a: seq<And>, la: int, b: seq<And>, lb: int)
    requires Grown(a, la, b, lb)
    ensures la <= lb
  {}

  lemma FirstSpeaks(clause: Clause, variable: int, last: int)
    requires Speaks(clause, variable, last) && clause != []
    ensures clause[0] != 0 && Abs(clause[0]) != variable && Abs(clause[0]) <= last
  {}

  lemma SpeakAt(cs: seq<Clause>, variable: int, last: int, i: nat)
    requires AllSpeak(cs, variable, last) && i < |cs|
    ensures Speaks(cs[i], variable, last)
  {}

  lemma SpeakMore(cs: seq<Clause>, variable: int, last: int, last2: int)
    requires AllSpeak(cs, variable, last) && last <= last2
    ensures AllSpeak(cs, variable, last2)
  {}

  lemma SpeakPrefix(cs: seq<Clause>, variable: int, last: int, i: nat)
    requires AllSpeak(cs, variable, last) && i <= |cs|
    ensures AllSpeak(cs[..i], variable, last)
  {}

  lemma RemainingNone(arbs: map<int, bool>)
    ensures Remaining([], arbs) == []
  {}

  lemma RemainingNext(clauses: seq<Clause>, arbs: map<int, bool>, i: nat)
    requires i < |clauses|
    ensures Remaining(clauses[..i + 1], arbs)
            == Remaining(clauses[..i], arbs) + if AssignedTrue(clauses[i], arbs) then [] else [Unassigned(clauses[i], arbs)]
  {
    assert clauses[..i + 1][..i] == clauses[..i];
  }

  lemma {:induction false} EmptyStays(clauses: seq<Clause>, arbs: map<int, bool>, i: nat)
    requires i < |clauses| && !AssignedTrue(clauses[i], arbs) && Unassigned(clauses[i], arbs) == []
    ensures HasEmpty(Remaining(clauses, arbs))
    decreases |clauses|
  {
    hide AssignedTrue, Unassigned;
    var n := |clauses| - 1;
    if i < n {
      EmptyStays(clauses[..n], arbs, i);
      var k :| 0 <= k < |Remaining(clauses[..n], arbs)| && Remaining(clauses[..n], arbs)[k] == [];
      assert Remaining(clauses, arbs)[k] == [];
    } else {
      assert Remaining(clauses, arbs)[|Remaining(clauses[..n], arbs)|] == [];
    }
  }

  lemma EachSize(gates: seq<And>, fires: seq<int>, clauses: seq<Clause>)
    requires EachFires(gates, fires, clauses)
    ensures |fires| == |clauses|
  {}

  lemma SingleFires(gates: seq<And>, r: int, bodies: seq<Clause>)
    requires |bodies| == 1 && r != 0 && AllFalse(gates, r, bodies[0])
    ensures HoldsWhenFires(gates, Representation(r), bodies)
  {
    forall val: Valuation
      ensures LitHolds(Computed(val, gates), Representation(r)) <==> SomeFires(Computed(val, gates), bodies)
    {
      RepresentationHolds(Computed(val, gates), r);
      FiresOne(Computed(val, gates), bodies[0]);
      assert bodies == [bodies[0]];
    }
  }

  lemma EachGrown(a: seq<And>, la: int, b: seq<And>, lb: int, fires: seq<int>, clauses: seq<Clause>, variable: int)
    requires Grown(a, la, b, lb) && EachFires(a, fires, clauses) && AllSpeak(clauses, variable, la) && Speaks(fires, variable, la)
    ensures EachFires(b, fires, clauses)
  {
    hide Grown, AllFalse;
    forall i | 0 <= i < |fires| ensures AllFalse(b, fires[i], clauses[i]) {
      AllFalseGrown(a, la, b, lb, fires[i], clauses[i], variable);
    }
  }
}
