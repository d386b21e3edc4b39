/** Clauses for Skolem functions given by forcing clauses and defaults. */
module SkolemClauses {
  import opened Dqbf
  import opened SkolemRules

  /** All variables are below u. */
  ghost predicate ClauseBelow(c: Clause, u: int) {
    forall i :: 0 <= i < |c| ==> c[i] != 0 && Abs(c[i]) < u
  }

  ghost predicate Below(f: seq<Clause>, u: int) {
    forall i :: 0 <= i < |f| ==> ClauseBelow(f[i], u)
  }

  ghost predicate SameBelow(v: Valuation, w: Valuation, u: int) {
    forall x :: x < u ==> v(x) == w(x)
  }

  /** The variable has the value that its rules say. */
  ghost predicate Right(val: Valuation, r: Rules, arbs: map<int, bool>) {
    NoClash(arbs, val, r) && TreeDecides(val, r) && val(r.variable) == SkolemValue(arbs, val, r)
  }

  /** Clauses over variables below u that can be met by values from u0 on, whenever the variable has its value. */
  ghost predicate Extendable(f: seq<Clause>, u0: int, u: int, r: Rules, arbs: map<int, bool>) {
    && u0 <= u && Below(f, u)
    && forall val: Valuation :: Right(val, r, arbs) ==> exists w :: SameBelow(val, w, u0) && AllSat(w, f)
  }

  /** The clauses allow exactly one value of the variable, the right one. */
  ghost predicate Encodes(f: seq<Clause>, u0: int, r: Rules, arbs: map<int, bool>) {
    && (forall val: Valuation :: AllSat(val, f) && NoClash(arbs, val, r) && TreeDecides(val, r) ==>
          val(r.variable) == SkolemValue(arbs, val, r))
    && forall val: Valuation :: Right(val, r, arbs) ==> exists w :: SameBelow(val, w, u0) && AllSat(w, f)
  }

  /** In every model of the clauses x is true exactly when one of the bodies fires. */
  ghost predicate Tells(f: seq<Clause>, x: int, bodies: seq<Clause>, arbs: map<int, bool>) {
    forall val: Valuation :: AllSat(val, f) ==> (True(val, x) <==> SomeFires(Under(arbs, val), bodies))
  }

  /** In every model of the clauses one of the literals is true exactly when one of the bodies fires. */
  ghost predicate TellTogether(f: seq<Clause>, xs: seq<int>, bodies: seq<Clause>, arbs: map<int, bool>) {
    forall val: Valuation :: AllSat(val, f) ==> (Sat(val, xs) <==> SomeFires(Under(arbs, val), bodies))
  }

  // ------------------------------------------------------- definitions

  ghost function Blockers(c: Clause, active: int): seq<Clause> {
    seq(|c|, i requires 0 <= i < |c| => [-c[i], -active])
  }

  /** active stands for: no literal of c is true. */
  ghost function ActiveClauses(c: Clause, active: int): seq<Clause> {
    [c + [active]] + Blockers(c, active)
  }

  lemma ActiveMeans(c: Clause, active: int, val: Valuation)
    requires active > 0 && 0 !in c
    ensures AllSat(val, ActiveClauses(c, active)) <==> (val(active) <==> !Sat(val, c))
  {
    var f, b := [c + [active]], Blockers(c, active);
    AllSatConcat(val, f, b);
    SatConcat(val, c, [active]);
    UnitMeans(val, active);
    assert AllSat(val, f) <==> Sat(val, c + [active]) by { assert f[0] == c + [active]; }
    forall i | 0 <= i < |b| ensures Sat(val, b[i]) <==> True(val, -c[i]) || !val(active) {
      assert b[i] == [-c[i], -active] && c[i] in c;
      PairMeans(val, -c[i], -active);
    }
    BlockersMean(c, active, val);
  }

  lemma BlockersMean(c: Clause, active: int, val: Valuation)
    requires active > 0 && 0 !in c
    ensures AllSat(val, Blockers(c, active)) <==> !Sat(val, c) || !val(active)
  {
    var b := Blockers(c, active);
    forall i | 0 <= i < |b| ensures Sat(val, b[i]) <==> !True(val, c[i]) || !val(active) {
      assert b[i] == [-c[i], -active] && c[i] in c;
      PairMeans(val, -c[i], -active);
    }
    if AllSat(val, b) && val(active) {
      forall i | 0 <= i < |c| ensures !True(val, c[i]) { assert Sat(val, b[i]); }
    }
  }

  lemma SameBelowSat(v: Valuation, w: Valuation, u: int, f: seq<Clause>)
    requires SameBelow(v, w, u) && Below(f, u)
    ensures AllSat(v, f) <==> AllSat(w, f)
  {
    hide Sat;
    forall i | 0 <= i < |f| ensures Sat(v, f[i]) <==> Sat(w, f[i]) { SameBelowClause(v, w, u, f[i]); }
  }

  lemma SameBelowClause(v: Valuation, w: Valuation, u: int, c: Clause)
    requires SameBelow(v, w, u) && ClauseBelow(c, u)
    ensures Sat(v, c) <==> Sat(w, c)
  {
    forall i | 0 <= i < |c| ensures True(v, c[i]) == True(w, c[i]) {}
  }

  lemma ActiveBelow(c: Clause, active: int)
    requires ClauseBelow(c, active) && active > 0
    ensures Below(ActiveClauses(c, active), active + 1)
  {}

  /** A fresh variable for a clause keeps the clauses extendable. */
  lemma DefinitionNext(f: seq<Clause>, u0: int, u: int, r: Rules, arbs: map<int, bool>, c: Clause)
    requires Extendable(f, u0, u, r, arbs) && ClauseBelow(c, u) && u > 0
    ensures Extendable(f + ActiveClauses(c, u), u0, u + 1, r, arbs)
  {
    hide Right, ActiveClauses, AllSat, Sat;
    var d := ActiveClauses(c, u);
    ActiveBelow(c, u);
    assert 0 !in c;
    forall val: Valuation | Right(val, r, arbs) ensures exists w :: SameBelow(val, w, u0) && AllSat(w, f + d) {
      var w :| SameBelow(val, w, u0) && AllSat(w, f);
      var w2: Valuation := x => if x == u then !Sat(w, c) else w(x);
      assert SameBelow(w, w2, u) && SameBelow(val, w2, u0);
      SameBelowSat(w, w2, u, f);
      SameBelowClause(w, w2, u, c);
      ActiveMeans(c, u, w2);
      AllSatConcat(w2, f, d);
    }
    BelowConcat(f, d, u, u + 1);
  }

  lemma BelowConcat(f: seq<Clause>, d: seq<Clause>, u: int, u2: int)
    requires Below(f, u) && Below(d, u2) && u <= u2
    ensures Below(f + d, u2)
  {
    forall i | 0 <= i < |f| ensures ClauseBelow(f[i], u2) { assert ClauseBelow(f[i], u); }
  }

  /** What holds in every model keeps the clauses extendable. */
  lemma ConstraintNext(f: seq<Clause>, u0: int, u: int, r: Rules, arbs: map<int, bool>, last: int, d: seq<Clause>)
    requires Extendable(f, u0, u, r, arbs) && Below(d, u) && GoodRules(r, arbs, last) && last < u0
    requires forall w: Valuation :: AllSat(w, f) && Right(w, r, arbs) ==> AllSat(w, d)
    ensures Extendable(f + d, u0, u, r, arbs)
  {
    hide Right, AllSat, GoodRules;
    forall val: Valuation | Right(val, r, arbs) ensures exists w :: SameBelow(val, w, u0) && AllSat(w, f + d) {
      var w :| SameBelow(val, w, u0) && AllSat(w, f);
      RightSame(val, w, u0, r, arbs, last);
      AllSatConcat(w, f, d);
    }
    BelowConcat(f, d, u, u);
  }

  lemma RightSame(v: Valuation, w: Valuation, u0: int, r: Rules, arbs: map<int, bool>, last: int)
    requires SameBelow(v, w, u0) && GoodRules(r, arbs, last) && last < u0
    ensures Right(v, r, arbs) <==> Right(w, r, arbs)
  {
    RulesSame(r, arbs, last, v, w);
    hide NoClash, TreeDecides, SkolemValue;
  }

  // ------------------------------------------------------- forcing clauses

  /** The assignment lists exactly the true literals of the arbiters. */
  ghost predicate Lists(assignment: seq<int>, arbs: map<int, bool>) {
    forall l :: l in assignment <==> l != 0 && Abs(l) in arbs && arbs[Abs(l)] == (l > 0)
  }

  lemma TellNothing(f: seq<Clause>, arbs: map<int, bool>)
    ensures TellTogether(f, [], [], arbs)
  {}

  lemma FiresNext(bodies: seq<Clause>, i: nat, val: Valuation)
    requires i < |bodies|
    ensures SomeFires(val, bodies[..i + 1]) <==> SomeFires(val, bodies[..i]) || !Sat(val, bodies[i])
  {
    hide Sat;
    if SomeFires(val, bodies[..i]) {
      var k :| 0 <= k < |bodies[..i]| && !Sat(val, bodies[..i][k]);
      assert bodies[..i + 1][k] == bodies[..i][k];
    }
    assert bodies[..i + 1][i] == bodies[i];
    assert forall k :: 0 <= k < i ==> bodies[..i + 1][k] == bodies[..i][k];
  }

  /** A clause that an arbiter satisfies never fires. */
  lemma TellSkip(f: seq<Clause>, xs: seq<int>, bodies: seq<Clause>, arbs: map<int, bool>, i: nat)
    requires i < |bodies| && TellTogether(f, xs, bodies[..i], arbs) && AssignedTrue(bodies[i], arbs)
    ensures TellTogether(f, xs, bodies[..i + 1], arbs)
  {
    hide Sat, AllSat, AssignedTrue, SomeFires, Under;
    forall val: Valuation | AllSat(val, f) ensures Sat(val, xs) <==> SomeFires(Under(arbs, val), bodies[..i + 1]) {
      FiresNext(bodies, i, Under(arbs, val));
      RemovedFires(bodies[i], arbs, val);
    }
  }

  /** Otherwise its new variable tells when it does. */
  lemma TellNext(f: seq<Clause>, xs: seq<int>, bodies: seq<Clause>, arbs: map<int, bool>, i: nat, active: int)
    requires i < |bodies| && TellTogether(f, xs, bodies[..i], arbs) && !AssignedTrue(bodies[i], arbs)
    requires active > 0 && 0 !in Unassigned(bodies[i], arbs)
    ensures TellTogether(f + ActiveClauses(Unassigned(bodies[i], arbs), active), xs + [active], bodies[..i + 1], arbs)
  {
    var c := Unassigned(bodies[i], arbs);
    hide Sat, AllSat, AssignedTrue, SomeFires, Under, Unassigned, ActiveClauses;
    forall val: Valuation | AllSat(val, f + ActiveClauses(c, active))
      ensures Sat(val, xs + [active]) <==> SomeFires(Under(arbs, val), bodies[..i + 1])
    {
      AllSatConcat(val, f, ActiveClauses(c, active));
      ActiveMeans(c, active, val);
      FiresNext(bodies, i, Under(arbs, val));
      RemovedFires(bodies[i], arbs, val);
      SatConcat(val, xs, [active]);
      UnitMeans(val, active);
    }
  }

  lemma TellMore(f: seq<Clause>, g: seq<Clause>, xs: seq<int>, bodies: seq<Clause>, arbs: map<int, bool>)
    requires TellTogether(f, xs, bodies, arbs)
    ensures TellTogether(f + g, xs, bodies, arbs)
  {
    hide Sat, AllSat, SomeFires, Under;
    forall val: Valuation | AllSat(val, f + g) ensures AllSat(val, f) { AllSatConcat(val, f, g); }
  }

  lemma TellsMore(f: seq<Clause>, g: seq<Clause>, x: int, bodies: seq<Clause>, arbs: map<int, bool>)
    requires Tells(f, x, bodies, arbs)
    ensures Tells(f + g, x, bodies, arbs)
  {
    hide Sat, AllSat, SomeFires, Under, True;
    forall val: Valuation | AllSat(val, f + g) ensures AllSat(val, f) { AllSatConcat(val, f, g); }
  }

  /** The negation of a fresh variable for the list tells when one of them fires. */
  lemma TogetherTells(f: seq<Clause>, xs: seq<int>, bodies: seq<Clause>, arbs: map<int, bool>, active: int)
    requires TellTogether(f, xs, bodies, arbs) && active > 0 && 0 !in xs
    ensures Tells(f + ActiveClauses(xs, active), -active, bodies, arbs)
  {
    hide Sat, AllSat, SomeFires, Under, ActiveClauses;
    forall val: Valuation | AllSat(val, f + ActiveClauses(xs, active))
      ensures True(val, -active) <==> SomeFires(Under(arbs, val), bodies)
    {
      AllSatConcat(val, f, ActiveClauses(xs, active));
      ActiveMeans(xs, active, val);
    }
  }

  // ------------------------------------------------------- defaults

  lemma RuleMeans(val: Valuation, rule: int, c: int)
    requires rule != 0 && c != 0
    ensures AllSat(val, [[rule, c], [-rule, -c]]) <==> (True(val, rule) != True(val, c))
  {
    var f := [[rule, c], [-rule, -c]];
    PairMeans(val, rule, c);
    PairMeans(val, -rule, -c);
    assert f[0] == [rule, c] && f[1] == [-rule, -c];
  }

  /** With one constant default the variable differs from it exactly when a clause against it fires. */
  lemma ConstantEncodes(f: seq<Clause>, u0: int, u: int, r: Rules, arbs: map<int, bool>, last: int, rule: int)
    requires Extendable(f, u0, u, r, arbs) && GoodRules(r, arbs, last) && last < u0 && |r.defaults| == 1
    requires rule != 0 && Abs(rule) < u && r.defaults[0] != []
    requires Tells(f, rule, if r.defaults[0][0] > 0 then r.negative else r.positive, arbs)
    ensures r.defaults[0][0] != 0
    ensures Encodes(f + [[rule, r.defaults[0][0]], [-rule, -r.defaults[0][0]]], u0, r, arbs)
  {
    var c := r.defaults[0][0];
    assert |r.defaults[0]| == 1 && Head(r.defaults[0]) == c && Abs(c) == r.variable;
    var d := [[rule, c], [-rule, -c]];
    forall w: Valuation | AllSat(w, f)
      ensures AllSat(w, d) <==> (True(w, rule) != True(w, c))
      ensures NoClash(arbs, w, r) ==> (True(w, rule) != (SkolemValue(arbs, w, r) == (c > 0)))
    {
      RuleMeans(w, rule, c);
    }
    assert Below(d, u) by { assert ClauseBelow(d[0], u) && ClauseBelow(d[1], u); }
    hide GoodRules, SkolemValue, NoClash, AllSat, Below;
    ConstraintNext(f, u0, u, r, arbs, last, d);
    forall val: Valuation | AllSat(val, f + d) ensures AllSat(val, f) && AllSat(val, d) { AllSatConcat(val, f, d); }
  }

  /** If no clause against it can fire, the constant stands alone. */
  lemma UnitEncodes(f: seq<Clause>, u0: int, u: int, r: Rules, arbs: map<int, bool>, last: int)
    requires Extendable(f, u0, u, r, arbs) && GoodRules(r, arbs, last) && last < u0 && |r.defaults| == 1
    requires r.defaults[0] != [] && TellTogether(f, [], if r.defaults[0][0] > 0 then r.negative else r.positive, arbs)
    ensures Encodes(f + [[r.defaults[0][0]]], u0, r, arbs)
  {
    var c := r.defaults[0][0];
    assert |r.defaults[0]| == 1 && Head(r.defaults[0]) == c && Abs(c) == r.variable;
    var d := [[c]];
    forall w: Valuation | AllSat(w, f)
      ensures AllSat(w, d) <==> True(w, c)
      ensures SkolemValue(arbs, w, r) == (c > 0)
    {
      UnitMeans(w, c);
    }
    assert Below(d, u) by { assert ClauseBelow(d[0], u); }
    hide GoodRules, SkolemValue, NoClash, AllSat, Below;
    ConstraintNext(f, u0, u, r, arbs, last, d);
    forall val: Valuation | AllSat(val, f + d) ensures AllSat(val, f) && AllSat(val, d) { AllSatConcat(val, f, d); }
  }

  ghost function WithActivator(cs: seq<Clause>, x: int): seq<Clause> {
    seq(|cs|, i requires 0 <= i < |cs| => cs[i] + [x])
  }

  lemma ActivatorMeans(val: Valuation, cs: seq<Clause>, x: int)
    ensures cs != [] ==> (AllSat(val, WithActivator(cs, x)) <==> True(val, x) || AllSat(val, cs))
  {
    hide Sat;
    forall i | 0 <= i < |cs| ensures Sat(val, cs[i] + [x]) <==> Sat(val, cs[i]) || True(val, x) {
      SatConcat(val, cs[i], [x]);
      UnitMeans(val, x);
    }
    if AllSat(val, WithActivator(cs, x)) && !True(val, x) {
      forall i | 0 <= i < |cs| ensures Sat(val, cs[i]) { assert WithActivator(cs, x)[i] == cs[i] + [x]; }
    }
  }

  lemma TreeHoldsRight(val: Valuation, r: Rules, arbs: map<int, bool>, last: int)
    requires GoodRules(r, arbs, last) && |r.defaults| >= 2 && TreeDecides(val, r) && NoClash(arbs, val, r)
    ensures TreeHolds(val, r, arbs) <==> val(r.variable) == SkolemValue(arbs, val, r)
  {
    DefaultsMean(val, r);
    hide SomeFires, AllSat, GoodRules, Under;
  }

  /** Clauses that say that in every model keep the encoding exact. */
  lemma TreeEncodes(f: seq<Clause>, u0: int, u: int, r: Rules, arbs: map<int, bool>, last: int, d: seq<Clause>)
    requires Extendable(f, u0, u, r, arbs) && Below(d, u) && GoodRules(r, arbs, last) && last < u0 && |r.defaults| >= 2
    requires forall w: Valuation :: AllSat(w, f) ==> (AllSat(w, d) <==> TreeHolds(w, r, arbs))
    ensures Encodes(f + d, u0, r, arbs)
  {
    hide GoodRules, SkolemValue, NoClash, TreeDecides, AllSat, Below, TreeHolds;
    forall w: Valuation | AllSat(w, f) && Right(w, r, arbs) ensures AllSat(w, d) { TreeHoldsRight(w, r, arbs, last); }
    ConstraintNext(f, u0, u, r, arbs, last, d);
    forall val: Valuation | AllSat(val, f + d) && NoClash(arbs, val, r) && TreeDecides(val, r)
      ensures val(r.variable) == SkolemValue(arbs, val, r)
    {
      AllSatConcat(val, f, d);
      TreeHoldsRight(val, r, arbs, last);
    }
  }

  // ------------------------------------------------------- the writer

  lemma RulesParts(r: Rules, arbs: map<int, bool>, last: int)
    requires GoodRules(r, arbs, last)
    ensures 0 < r.variable <= last && AllSpeak(r.positive, r.variable, last) && AllSpeak(r.negative, r.variable, last)
    ensures forall i :: 0 <= i < |r.defaults| ==> r.defaults[i] != []
  {}

  lemma StartExtendable(u0: int, r: Rules, arbs: map<int, bool>)
    ensures Extendable([], u0, u0, r, arbs)
  {
    hide Right;
    forall val: Valuation | Right(val, r, arbs) ensures exists w :: SameBelow(val, w, u0) && AllSat(w, []) {
      assert SameBelow(val, val, u0) && AllSat(val, []);
    }
  }

  lemma NoZero(c: Clause, u: int)
    requires ClauseBelow(c, u)
    ensures 0 !in c
  {}

  lemma BelowMore(c: Clause, u: int, u2: int)
    requires ClauseBelow(c, u) && u <= u2
    ensures ClauseBelow(c, u2)
  {}

  lemma PairBelow(x: int, y: int, u: int)
    requires x != 0 && y != 0 && Abs(x) < u && Abs(y) < u
    ensures ClauseBelow([x, y], u)
  {}

  lemma SincePrefix(a: seq<Clause>, b: seq<Clause>, n: nat)
    requires a <= b && n <= |a|
    ensures b[n..] == a[n..] + b[n..][|a[n..]|..]
  {}

  /** Default clauses are over old variables. */
  lemma DefaultsBelow(r: Rules, arbs: map<int, bool>, last: int, u: int)
    requires GoodRules(r, arbs, last) && last < u
    ensures Below(r.defaults, u)
  {
    forall i | 0 <= i < |r.defaults| ensures ClauseBelow(r.defaults[i], u) {
      var c := r.defaults[i];
      assert Speaks(Body(c), r.variable, last) && c == Body(c) + [Head(c)];
    }
  }

  lemma ActivatorBelow(cs: seq<Clause>, x: int, u: int)
    requires Below(cs, u) && x != 0 && Abs(x) < u
    ensures Below(WithActivator(cs, x), u)
  {
    forall i | 0 <= i < |cs| ensures ClauseBelow(WithActivator(cs, x)[i], u) { assert ClauseBelow(cs[i], u); }
  }

  lemma NeverFires(f: seq<Clause>, bodies: seq<Clause>, arbs: map<int, bool>, w: Valuation)
    requires TellTogether(f, [], bodies, arbs) && AllSat(w, f)
    ensures !SomeFires(Under(arbs, w), bodies)
  {}

  /** No forcing clause can fire: the tree alone. */
  lemma PlainTree(f: seq<Clause>, u0: int, u: int, r: Rules, arbs: map<int, bool>, last: int)
    requires Extendable(f, u0, u, r, arbs) && GoodRules(r, arbs, last) && last < u0 && |r.defaults| >= 2
    requires TellTogether(f, [], r.positive, arbs) && TellTogether(f, [], r.negative, arbs)
    ensures Encodes(f + r.defaults, u0, r, arbs)
  {
    hide GoodRules, AllSat, SomeFires, Under, Sat, Encodes, Below;
    ExtendableAbove(f, u0, u, r, arbs);
    DefaultsBelow(r, arbs, last, u);
    forall w: Valuation | AllSat(w, f) ensures AllSat(w, r.defaults) <==> TreeHolds(w, r, arbs) {
      NeverFires(f, r.positive, arbs, w);
      NeverFires(f, r.negative, arbs, w);
    }
    TreeEncodes(f, u0, u, r, arbs, last, r.defaults);
  }

  lemma ExtendableAbove(f: seq<Clause>, u0: int, u: int, r: Rules, arbs: map<int, bool>)
    requires Extendable(f, u0, u, r, arbs)
    ensures u0 <= u
  {}

  lemma OneSidedEncodes(f: seq<Clause>, u0: int, u: int, r: Rules, arbs: map<int, bool>, last: int, x: int, sign: bool)
    requires Extendable(f, u0, u, r, arbs) && GoodRules(r, arbs, last) && last < u0 && |r.defaults| >= 2
    requires Tells(f, x, if sign then r.positive else r.negative, arbs) && x != 0 && Abs(x) < u && 0 < r.variable <= last
    requires TellTogether(f, [], if sign then r.negative else r.positive, arbs)
    ensures Encodes((f + [[-x, if sign then r.variable else -r.variable]]) + WithActivator(r.defaults, x), u0, r, arbs)
  {
    hide GoodRules, AllSat, SomeFires, Under, Sat, Encodes, Below, Extendable, TellTogether, WithActivator;
    ExtendableAbove(f, u0, u, r, arbs);
    var e := if sign then r.variable else -r.variable;
    var c, d := [[-x, e]], WithActivator(r.defaults, x);
    DefaultsBelow(r, arbs, last, u);
    ActivatorBelow(r.defaults, x, u);
    UnitBelow(-x, e, u);
    forall w: Valuation | AllSat(w, f)
      ensures !SomeFires(Under(arbs, w), if sign then r.negative else r.positive)
      ensures AllSat(w, c) <==> True(w, -x) || True(w, e)
      ensures AllSat(w, d) <==> True(w, x) || AllSat(w, r.defaults)
    {
      NeverFires(f, if sign then r.negative else r.positive, arbs, w);
      PairMeans(w, -x, e);
      ActivatorMeans(w, r.defaults, x);
    }
    ConstraintNext(f, u0, u, r, arbs, last, c);
    forall w: Valuation | AllSat(w, f + c) ensures AllSat(w, d) <==> TreeHolds(w, r, arbs) {
      AllSatConcat(w, f, c);
    }
    TreeEncodes(f + c, u0, u, r, arbs, last, d);
  }

  lemma UnitBelow(x: int, y: int, u: int)
    requires x != 0 && y != 0 && Abs(x) < u && Abs(y) < u
    ensures Below([[x, y]], u)
  {
    PairBelow(x, y, u);
  }

  /** Forced values are constraints that the right value meets. */
  lemma ForcedNext(f: seq<Clause>, u0: int, u: int, r: Rules, arbs: map<int, bool>, last: int, p: int, q: int)
    requires Extendable(f, u0, u, r, arbs) && GoodRules(r, arbs, last) && last < u0 && 0 < r.variable <= last
    requires Tells(f, p, r.positive, arbs) && Tells(f, q, r.negative, arbs)
    requires p != 0 && q != 0 && Abs(p) < u && Abs(q) < u
    ensures Extendable(f + [[-p, r.variable], [-q, -r.variable]], u0, u, r, arbs)
  {
    hide GoodRules, AllSat, SomeFires, Under, Sat, Below, Extendable;
    ExtendableAbove(f, u0, u, r, arbs);
    var c := [[-p, r.variable], [-q, -r.variable]];
    TwoBelow(-p, r.variable, -q, -r.variable, u);
    forall w: Valuation ensures AllSat(w, c) <==> (True(w, -p) || True(w, r.variable)) && (True(w, -q) || True(w, -r.variable)) {
      TwoMean(w, -p, r.variable, -q, -r.variable);
    }
    ConstraintNext(f, u0, u, r, arbs, last, c);
  }

  lemma TwoBelow(a: int, b: int, c: int, d: int, u: int)
    requires a != 0 && b != 0 && c != 0 && d != 0 && Abs(a) < u && Abs(b) < u && Abs(c) < u && Abs(d) < u
    ensures Below([[a, b], [c, d]], u)
  {
    PairBelow(a, b, u);
    PairBelow(c, d, u);
  }

  lemma TwoMean(w: Valuation, a: int, b: int, c: int, d: int)
    ensures AllSat(w, [[a, b], [c, d]]) <==> (True(w, a) || True(w, b)) && (True(w, c) || True(w, d))
  {
    PairMeans(w, a, b);
    PairMeans(w, c, d);
    assert [[a, b], [c, d]] == [[a, b]] + [[c, d]];
    AllSatConcat(w, [[a, b]], [[c, d]]);
  }

  lemma TwoSidedEncodes(f: seq<Clause>, u0: int, u: int, r: Rules, arbs: map<int, bool>, last: int, p: int, q: int, z: int)
    requires GoodRules(r, arbs, last) && last < u0 && |r.defaults| >= 2 && 0 < r.variable <= last
    requires Tells(f, p, r.positive, arbs) && Tells(f, q, r.negative, arbs) && p != 0 && q != 0 && 0 < z < u
    requires Extendable((f + [[-p, r.variable], [-q, -r.variable]]) + ActiveClauses([p, q], z), u0, u, r, arbs)
    ensures Encodes(((f + [[-p, r.variable], [-q, -r.variable]]) + ActiveClauses([p, q], z)) + WithActivator(r.defaults, -z),
                    u0, r, arbs)
  {
    hide GoodRules, AllSat, SomeFires, Under, Sat, Encodes, Below, Extendable, WithActivator, ActiveClauses;
    var c, a, d := [[-p, r.variable], [-q, -r.variable]], ActiveClauses([p, q], z), WithActivator(r.defaults, -z);
    ExtendableAbove(f + c + a, u0, u, r, arbs);
    DefaultsBelow(r, arbs, last, u);
    ActivatorBelow(r.defaults, -z, u);
    forall w: Valuation | AllSat(w, f + c + a) ensures AllSat(w, d) <==> TreeHolds(w, r, arbs) {
      AllSatConcat(w, f + c, a);
      AllSatConcat(w, f, c);
      TwoMean(w, -p, r.variable, -q, -r.variable);
      ActiveMeans([p, q], z, w);
      PairMeans(w, p, q);
      ActivatorMeans(w, r.defaults, -z);
    }
    TreeEncodes(f + c + a, u0, u, r, arbs, last, d);
  }

  // ------------------------------------------------------- without default clauses

  /** The bodies that the arbiters leave open, without the arbiters. */
  function OpenBodies(cs: seq<Clause>, arbs: map<int, bool>): seq<Clause> {
    if cs == [] then []
    else OpenBodies(cs[..|cs| - 1], arbs)
         + if AssignedTrue(cs[|cs| - 1], arbs) then [] else [Unassigned(cs[|cs| - 1], arbs)]
  }

  /** What is written without default clauses: bodies only. */
  function BareClauses(r: Rules, arbs: map<int, bool>): seq<Clause> {
    OpenBodies(r.positive, arbs) + OpenBodies(r.negative, arbs)
  }

  lemma OpenNone(arbs: map<int, bool>)
    ensures OpenBodies([], arbs) == []
  {}

  lemma OpenNext(cs: seq<Clause>, c: Clause, arbs: map<int, bool>)
    ensures OpenBodies(cs + [c], arbs) == OpenBodies(cs, arbs) + OpenBodies([c], arbs)
  {
    assert (cs + [c])[..|cs|] == cs && [c][..0] == [];
  }

  lemma OpenOne(c: Clause, arbs: map<int, bool>)
    ensures OpenBodies([c], arbs) == if AssignedTrue(c, arbs) then [] else [Unassigned(c, arbs)]
  {
    assert [c][..0] == [];
  }

  lemma AssignedTrueAt(c: Clause, arbs: map<int, bool>, i: nat)
    requires !AssignedTrue(c, arbs) && i < |c|
    ensures !(Abs(c[i]) in arbs && arbs[Abs(c[i])] == (c[i] > 0))
  {}

  lemma SpeakNonZero(cs: seq<Clause>, variable: int, last: int)
    requires AllSpeak(cs, variable, last)
    ensures forall i :: 0 <= i < |cs| ==> 0 !in cs[i]
  {
    forall i | 0 <= i < |cs| ensures 0 !in cs[i] { assert Speaks(cs[i], variable, last); }
  }

  lemma {:induction false} OpenSpeaks(cs: seq<Clause>, arbs: map<int, bool>, variable: int, last: int)
    requires AllSpeak(cs, variable, last)
    ensures AllSpeak(OpenBodies(cs, arbs), variable, last)
  {
    hide Speaks, Unassigned, AssignedTrue;
    if cs != [] {
      OpenSpeaks(cs[..|cs| - 1], arbs, variable, last);
      UnassignedSpeaks(cs[|cs| - 1], arbs, variable, last);
    }
  }

  /** Without default clauses the clauses do not mention the variable: they never define it, unless
      its clauses contradict each other everywhere. */
  lemma BareExact(r: Rules, arbs: map<int, bool>, last: int, u0: int)
    requires GoodRules(r, arbs, last) && r.defaults == [] && last < u0
    ensures Encodes(BareClauses(r, arbs), u0, r, arbs) <==> forall val: Valuation :: !NoClash(arbs, val, r)
  {
    var f, x := BareClauses(r, arbs), r.variable;
    OpenSpeaks(r.positive, arbs, x, last);
    OpenSpeaks(r.negative, arbs, x, last);
    if Encodes(f, u0, r, arbs) {
      forall val: Valuation ensures !NoClash(arbs, val, r) {
        if NoClash(arbs, val, r) { BareMisleads(r, arbs, last, u0, val); }
      }
    } else {
      hide AllSat, SkolemValue;
    }
  }

  lemma BareMisleads(r: Rules, arbs: map<int, bool>, last: int, u0: int, val: Valuation)
    requires GoodRules(r, arbs, last) && r.defaults == [] && last < u0 && NoClash(arbs, val, r)
    requires AllSpeak(BareClauses(r, arbs), r.variable, last)
    ensures !Encodes(BareClauses(r, arbs), u0, r, arbs)
  {
    var f, x := BareClauses(r, arbs), r.variable;
    hide SkolemValue, NoClash, BareClauses, AllSat, GoodRules;
    assert x <= last by { RulesParts(r, arbs, last); }
    if Encodes(f, u0, r, arbs) {
      var v: Valuation := y => if y == x then SkolemValue(arbs, val, r) else val(y);
      RulesSame(r, arbs, last, val, v);
      assert TreeDecides(v, r) && Right(v, r, arbs);
      var w: Valuation :| SameBelow(v, w, u0) && AllSat(w, f);
      var w2: Valuation := y => if y == x then !w(x) else w(y);
      RulesSame(r, arbs, last, v, w);
      RulesSame(r, arbs, last, w, w2);
      SpeakSat(f, x, last, w, w2);
    }
  }

  /** The smallest failure: if 1 forces 2 and there is no default, what is written is that 1 is false. */
  lemma BareExample()
    ensures var r := Rules(2, [[-1]], [], []);
            GoodRules(r, map[], 2) && BareClauses(r, map[]) == [[-1]] && !Encodes(BareClauses(r, map[]), 3, r, map[])
  {
    var r, arbs: map<int, bool> := Rules(2, [[-1]], [], []), map[];
    var val: Valuation := x => true;
    hide NoClash, Encodes, OpenBodies, Speaks;
    OneBody(arbs);
    SpeaksOfOne();
    NothingNegative(arbs, val, r);
    BareExact(r, arbs, 2, 3);
  }

  lemma SpeaksOfOne()
    ensures AllSpeak([[-1]], 2, 2) && AllSpeak([], 2, 2)
  {}

  lemma NothingNegative(arbs: map<int, bool>, val: Valuation, r: Rules)
    requires r.negative == []
    ensures NoClash(arbs, val, r)
  {}

  lemma OneBody(arbs: map<int, bool>)
    requires arbs == map[]
    ensures OpenBodies([[-1]], arbs) == [[-1]] && OpenBodies([], arbs) == []
  {
    var c: Clause := [-1];
    assert [c][..0] == [] && c[..0] == [];
    assert Unassigned(c, arbs) == c;
    assert !AssignedTrue(c, arbs);
  }

  lemma SpeakSat(f: seq<Clause>, variable: int, last: int, v: Valuation, w: Valuation)
    requires AllSpeak(f, variable, last) && AllSat(v, f) && forall x :: x <= last && x != variable ==> v(x) == w(x)
    ensures AllSat(w, f)
  {
    hide Speaks, Sat;
    forall i | 0 <= i < |f| ensures Sat(w, f[i]) {
      assert Speaks(f[i], variable, last);
      SpeaksSame(f[i], variable, last, v, w);
    }
  }

  class ModelLogger {
    var clauses: seq<Clause>
    var unused: int

    /** The clauses written since the first n. */
    ghost function Since(n: nat): seq<Clause>
      reads this
      requires n <= |clauses|
    {
      clauses[n..]
    }

    method WriteClause(c: Clause)
      modifies `clauses
      ensures clauses == old(clauses) + [c]
    {
      clauses := clauses + [c];
    }

    /** Returns a new variable that is true exactly when no literal of the clause is. */
    method WriteClauseActive(clause: Clause, ghost n: nat, ghost u0: int, ghost r: Rules, ghost arbs: map<int, bool>)
        returns (active: int)
      requires n <= |clauses| && Extendable(Since(n), u0, unused, r, arbs) && ClauseBelow(clause, unused) && unused > 0
      modifies this
      ensures active == old(unused) && unused == old(unused) + 1 && old(clauses) <= clauses
      ensures Since(n) == old(Since(n)) + ActiveClauses(clause, active) && Extendable(Since(n), u0, unused, r, arbs)
    {
      hide Extendable, ClauseBelow;
      ghost var f := Since(n);
      DefinitionNext(f, u0, unused, r, arbs, clause);
      active := unused;
      unused := unused + 1;
      WriteClause(clause + [active]);
      for i := 0 to |clause|
        invariant old(clauses) <= clauses && Since(n) == f + ([clause + [active]] + Blockers(clause, active)[..i])
        modifies `clauses
      {
        assert Blockers(clause, active)[..i + 1] == Blockers(clause, active)[..i] + [[-clause[i], -active]];
        WriteClause([-clause[i], -active]);
      }
      assert Blockers(clause, active)[..|clause|] == Blockers(clause, active);
    }

    /** Drop the literals that the assignment makes false; stop at one that it makes true. */
    method ApplyAssignment(clause: Clause, assignment: seq<int>, ghost arbs: map<int, bool>)
        returns (satisfied: bool, rest: Clause)
      requires Lists(assignment, arbs) && 0 !in clause
      ensures satisfied == AssignedTrue(clause, arbs) && (!satisfied ==> rest == Unassigned(clause, arbs))
    {
      hide Lists, Unassigned, AssignedTrue;
      rest := clause;
      var it := 0;
      ghost var k := 0;
      UnassignedNone(clause, arbs);
      while it < |rest|
        invariant 0 <= it <= |rest| && 0 <= k <= |clause| && rest == Unassigned(clause[..k], arbs) + clause[k..]
        invariant it == |Unassigned(clause[..k], arbs)| && !AssignedTrue(clause[..k], arbs)
        decreases |clause| - k
      {
        UnassignedStep(clause, arbs, k);
        assert rest[it] == clause[k] && clause[k] in clause;
        ListsAt(assignment, arbs, clause[k]);
        EraseOrKeep(rest, Unassigned(clause[..k], arbs), clause, k);
        if rest[it] in assignment {
          return true, rest;
        } else if -rest[it] in assignment {
          rest := rest[..it] + rest[it + 1..];
        } else {
          it := it + 1;
        }
        k := k + 1;
      }
      assert k == |clause| && clause[..|clause|] == clause;
      satisfied := false;
    }

    /** The default clauses, each switched off when a forcing clause fires. */
    method WriteDefaults(defaults: seq<Clause>, activator: int)
      modifies `clauses
      ensures clauses == old(clauses) + WithActivator(defaults, activator)
    {
      for i := 0 to |defaults|
        invariant clauses == old(clauses) + WithActivator(defaults, activator)[..i]
        modifies `clauses
      {
        assert WithActivator(defaults, activator)[..i + 1] == WithActivator(defaults, activator)[..i] + [defaults[i] + [activator]];
        WriteClause(defaults[i] + [activator]);
      }
      assert WithActivator(defaults, activator)[..|defaults|] == WithActivator(defaults, activator);
    }

    method WriteFormula(formula: seq<Clause>)
      modifies `clauses
      ensures clauses == old(clauses) + formula
    {
      for i := 0 to |formula|
        invariant clauses == old(clauses) + formula[..i]
        modifies `clauses
      {
        assert formula[..i + 1] == formula[..i] + [formula[i]];
        WriteClause(formula[i]);
      }
      assert formula[..|formula|] == formula;
    }

    /** The clause without what the assignment makes false; nothing if the assignment makes it true. */
    method WriteAssigned(clause: Clause, assignment: seq<int>, ghost arbs: map<int, bool>)
      requires Lists(assignment, arbs) && 0 !in clause
      modifies `clauses
      ensures clauses == old(clauses) + OpenBodies([clause], arbs)
    {
      hide Lists, Unassigned, AssignedTrue, OpenBodies;
      UnassignedNone(clause, arbs);
      OpenOne(clause, arbs);
      assert clause[..|clause|] == clause;
      for i := 0 to |clause|
        invariant !AssignedTrue(clause[..i], arbs) && clauses == old(clauses)
      {
        UnassignedStep(clause, arbs, i);
        ListsAt(assignment, arbs, clause[i]);
        if clause[i] in assignment {
          assert clauses == old(clauses) + [];
          return;
        }
      }
      var rest: Clause := [];
      for i := 0 to |clause|
        invariant rest == Unassigned(clause[..i], arbs) && !AssignedTrue(clause, arbs) && clauses == old(clauses)
      {
        UnassignedStep(clause, arbs, i);
        ListsAt(assignment, arbs, clause[i]);
        AssignedTrueAt(clause, arbs, i);
        if -clause[i] !in assignment {
          rest := rest + [clause[i]];
        }
      }
      WriteClause(rest);
    }

    method WriteAssignedFormula(formula: seq<Clause>, assignment: seq<int>, ghost arbs: map<int, bool>)
      requires Lists(assignment, arbs) && forall i :: 0 <= i < |formula| ==> 0 !in formula[i]
      modifies `clauses
      ensures clauses == old(clauses) + OpenBodies(formula, arbs)
    {
      hide Lists, OpenBodies;
      OpenNone(arbs);
      for i := 0 to |formula|
        invariant clauses == old(clauses) + OpenBodies(formula[..i], arbs)
        modifies `clauses
      {
        assert formula[..i + 1] == formula[..i] + [formula[i]];
        OpenNext(formula[..i], formula[i], arbs);
        WriteAssigned(formula[i], assignment, arbs);
      }
      assert formula[..|formula|] == formula;
    }

    /** The clauses of one variable. */
    method ProcessForcingClauses(r: Rules, assignment: seq<int>, ghost arbs: map<int, bool>, ghost last: int)
      requires GoodRules(r, arbs, last) && Lists(assignment, arbs) && last < unused
      modifies this
      ensures old(clauses) <= clauses && unused >= old(unused)
      ensures r.defaults != [] ==> Encodes(clauses[|old(clauses)|..], old(unused), r, arbs)
      ensures r.defaults == [] ==> clauses == old(clauses) + BareClauses(r, arbs)
    {
      hide Extendable, GoodRules, GoodDefaults, AllSpeak, Lists, TellTogether, Tells, Encodes, ClauseBelow, ActiveClauses,
           OpenBodies;
      ghost var n, u0 := |clauses|, unused;
      RulesParts(r, arbs, last);
      if r.defaults == [] {
        SpeakNonZero(r.positive, r.variable, last);
        SpeakNonZero(r.negative, r.variable, last);
        WriteAssignedFormula(r.positive, assignment, arbs);
        WriteAssignedFormula(r.negative, assignment, arbs);
        return;
      }
      StartExtendable(u0, r, arbs);
      assert Since(n) == [];
      if |r.defaults| == 1 {
        var constant := r.defaults[0][0];
        var bodies := if constant > 0 then r.negative else r.positive;
        var actives := WriteForcingClauses(bodies, assignment, n, u0, r, arbs, last);
        if actives == [] {
          ghost var f := Since(n);
          UnitEncodes(f, u0, unused, r, arbs, last);
          WriteClause([constant]);
          assert Since(n) == f + [[constant]];
          return;
        }
        ghost var f := Since(n);
        NoZero(actives, unused);
        TogetherTells(f, actives, bodies, arbs, unused);
        var x := WriteClauseActive(actives, n, u0, r, arbs);
        var rule := -x;
        ghost var g := Since(n);
        ConstantEncodes(g, u0, unused, r, arbs, last, rule);
        WriteClause([rule, constant]);
        WriteClause([-rule, -constant]);
        assert Since(n) == g + [[rule, constant], [-rule, -constant]];
        return;
      }
      ProcessTree(r, assignment, n, u0, arbs, last);
    }

    method ProcessTree(r: Rules, assignment: seq<int>, ghost n: nat, ghost u0: int, ghost arbs: map<int, bool>, ghost last: int)
      requires GoodRules(r, arbs, last) && Lists(assignment, arbs) && last < u0 == unused && |r.defaults| >= 2
      requires n <= |clauses| && Extendable(Since(n), u0, unused, r, arbs) && Since(n) == []
      modifies this
      ensures n <= |clauses| && old(clauses)[..n] == clauses[..n] && unused >= old(unused)
      ensures Encodes(Since(n), u0, r, arbs)
    {
      hide Extendable, GoodRules, GoodDefaults, AllSpeak, Lists, TellTogether, Tells, Encodes, ClauseBelow, ActiveClauses;
      RulesParts(r, arbs, last);
      var positives := WriteForcingClauses(r.positive, assignment, n, u0, r, arbs, last);
      ghost var f1, c1, u1 := Since(n), clauses, unused;
      var negatives := WriteForcingClauses(r.negative, assignment, n, u0, r, arbs, last);
      ghost var f2 := Since(n);
      SincePrefix(c1, clauses, n);
      BelowMore(positives, u1, unused);
      TellMore(f1, f2[|f1|..], positives, r.positive, arbs);
      if positives == [] && negatives == [] {
        PlainTree(f2, u0, unused, r, arbs, last);
        WriteFormula(r.defaults);
        assert Since(n) == f2 + r.defaults;
      } else if positives == [] {
        OneSidedTree(r, n, u0, arbs, last, negatives, false);
      } else if negatives == [] {
        OneSidedTree(r, n, u0, arbs, last, positives, true);
      } else {
        TwoSidedTree(r, n, u0, arbs, last, positives, negatives);
      }
    }

    /** Only clauses of one sign can fire. */
    method OneSidedTree(r: Rules, ghost n: nat, ghost u0: int, ghost arbs: map<int, bool>, ghost last: int,
                        actives: seq<int>, sign: bool)
      requires GoodRules(r, arbs, last) && last < u0 <= unused && |r.defaults| >= 2 && n <= |clauses|
      requires Extendable(Since(n), u0, unused, r, arbs) && ClauseBelow(actives, unused)
      requires TellTogether(Since(n), actives, if sign then r.positive else r.negative, arbs)
      requires TellTogether(Since(n), [], if sign then r.negative else r.positive, arbs)
      modifies this
      ensures old(clauses) <= clauses && unused >= old(unused) && Encodes(Since(n), u0, r, arbs)
    {
      hide Extendable, GoodRules, GoodDefaults, AllSpeak, TellTogether, Tells, Encodes, ClauseBelow, ActiveClauses;
      RulesParts(r, arbs, last);
      ghost var f := Since(n);
      NoZero(actives, unused);
      TogetherTells(f, actives, if sign then r.positive else r.negative, arbs, unused);
      TellMore(f, ActiveClauses(actives, unused), [], if sign then r.negative else r.positive, arbs);
      var x := WriteClauseActive(actives, n, u0, r, arbs);
      var defaultActive := -x;
      ghost var g := Since(n);
      OneSidedEncodes(g, u0, unused, r, arbs, last, defaultActive, sign);
      WriteClause([-defaultActive, if sign then r.variable else -r.variable]);
      WriteDefaults(r.defaults, defaultActive);
      assert Since(n) == (g + [[-defaultActive, if sign then r.variable else -r.variable]]) + WithActivator(r.defaults, defaultActive);
    }

    /** Clauses of both signs can fire. */
    method TwoSidedTree(r: Rules, ghost n: nat, ghost u0: int, ghost arbs: map<int, bool>, ghost last: int,
                        positives: seq<int>, negatives: seq<int>)
      requires GoodRules(r, arbs, last) && last < u0 <= unused && |r.defaults| >= 2 && n <= |clauses|
      requires Extendable(Since(n), u0, unused, r, arbs) && ClauseBelow(positives, unused) && ClauseBelow(negatives, unused)
      requires TellTogether(Since(n), positives, r.positive, arbs) && TellTogether(Since(n), negatives, r.negative, arbs)
      modifies this
      ensures old(clauses) <= clauses && unused >= old(unused) && Encodes(Since(n), u0, r, arbs)
    {
      hide Extendable, GoodRules, GoodDefaults, AllSpeak, TellTogether, Tells, Encodes, ClauseBelow, ActiveClauses;
      RulesParts(r, arbs, last);
      ghost var f := Since(n);
      NoZero(positives, unused);
      NoZero(negatives, unused);
      TogetherTells(f, positives, r.positive, arbs, unused);
      TellMore(f, ActiveClauses(positives, unused), negatives, r.negative, arbs);
      BelowMore(negatives, unused, unused + 1);
      var x := WriteClauseActive(positives, n, u0, r, arbs);
      ghost var g := Since(n);
      TogetherTells(g, negatives, r.negative, arbs, unused);
      TellsMore(g, ActiveClauses(negatives, unused), -x, r.positive, arbs);
      var y := WriteClauseActive(negatives, n, u0, r, arbs);
      var positiveFires, negativeFires := -x, -y;
      ghost var h := Since(n);
      ForcedNext(h, u0, unused, r, arbs, last, positiveFires, negativeFires);
      WriteClause([-positiveFires, r.variable]);
      WriteClause([-negativeFires, -r.variable]);
      ghost var h2 := Since(n);
      assert h2 == h + [[-positiveFires, r.variable], [-negativeFires, -r.variable]];
      PairBelow(positiveFires, negativeFires, unused);
      var z := WriteClauseActive([positiveFires, negativeFires], n, u0, r, arbs);
      var defaultActive := -z;
      ghost var h3 := Since(n);
      TwoSidedEncodes(h, u0, unused, r, arbs, last, positiveFires, negativeFires, z);
      WriteDefaults(r.defaults, defaultActive);
      assert Since(n) == h3 + WithActivator(r.defaults, defaultActive);
    }

    /** For every forcing clause that can fire a variable that says whether it does. */
    method WriteForcingClauses(bodies: seq<Clause>, assignment: seq<int>, ghost n: nat, ghost u0: int, ghost r: Rules,
                               ghost arbs: map<int, bool>, ghost last: int) returns (actives: seq<int>)
      requires n <= |clauses| && Extendable(Since(n), u0, unused, r, arbs) && Lists(assignment, arbs)
      requires AllSpeak(bodies, r.variable, last) && 0 < last < u0
      modifies this
      ensures old(clauses) <= clauses && Extendable(Since(n), u0, unused, r, arbs) && unused >= old(unused)
      ensures ClauseBelow(actives, unused)
      ensures TellTogether(Since(n), actives, bodies, arbs)
    {
      hide Extendable, AllSpeak, Speaks, Lists, TellTogether, ActiveClauses, AssignedTrue, Unassigned;
      ghost var f := Since(n);
      StartsAbove(f, u0, unused, r, arbs);
      actives := [];
      TellNothing(f, arbs);
      assert bodies[..0] == [];
      for i := 0 to |bodies|
        invariant old(clauses) <= clauses && Extendable(Since(n), u0, unused, r, arbs) && old(unused) <= unused && u0 <= unused
        invariant ClauseBelow(actives, unused) && TellTogether(Since(n), actives, bodies[..i], arbs)
      {
        BodyReady(bodies, arbs, r.variable, last, i, unused);
        var satisfied, cl := ApplyAssignment(bodies[i], assignment, arbs);
        if satisfied {
          TellSkip(Since(n), actives, bodies, arbs, i);
        } else {
          ghost var g := Since(n);
          TellNext(g, actives, bodies, arbs, i, unused);
          var active := WriteClauseActive(cl, n, u0, r, arbs);
          actives := actives + [active];
        }
      }
      assert bodies[..|bodies|] == bodies;
    }
  }

  /** The entry behind u in u + c[k..] is c[k]; without it, or with it moved to u, c[k + 1..] is left. */
  lemma EraseOrKeep(rest: seq<int>, u: seq<int>, c: seq<int>, k: nat)
    requires k < |c| && rest == u + c[k..]
    ensures rest[..|u|] + rest[|u| + 1..] == u + c[k + 1..] && rest == (u + [c[k]]) + c[k + 1..]
  {
    assert rest[..|u|] == u && rest[|u| + 1..] == c[k + 1..];
  }

  lemma UnassignedNone(c: Clause, arbs: map<int, bool>)
    ensures Unassigned(c[..0], arbs) == [] && !AssignedTrue(c[..0], arbs)
  {}

  lemma ListsAt(assignment: seq<int>, arbs: map<int, bool>, l: int)
    requires Lists(assignment, arbs) && l != 0
    ensures l in assignment <==> Abs(l) in arbs && arbs[Abs(l)] == (l > 0)
    ensures -l in assignment <==> Abs(l) in arbs && arbs[Abs(l)] != (l > 0)
  {}

  lemma UnassignedStep(c: Clause, arbs: map<int, bool>, k: nat)
    requires k < |c|
    ensures Unassigned(c[..k + 1], arbs) == Unassigned(c[..k], arbs) + if Abs(c[k]) in arbs then [] else [c[k]]
    ensures AssignedTrue(c[..k + 1], arbs) <==> AssignedTrue(c[..k], arbs) || (Abs(c[k]) in arbs && arbs[Abs(c[k])] == (c[k] > 0))
    ensures Abs(c[k]) in arbs && arbs[Abs(c[k])] == (c[k] > 0) ==> AssignedTrue(c, arbs)
    ensures c[k..] == [c[k]] + c[k + 1..]
  {
    var d := c[..k + 1];
    assert d[..k] == c[..k] && d[k] == c[k];
    if i :| 0 <= i < |c[..k]| && Abs(c[..k][i]) in arbs && arbs[Abs(c[..k][i])] == (c[..k][i] > 0) {
      assert d[i] == c[..k][i];
    }
    if i :| 0 <= i < |d| && Abs(d[i]) in arbs && arbs[Abs(d[i])] == (d[i] > 0) {
      if i < k { assert c[..k][i] == d[i]; }
    }
  }

  lemma StartsAbove(f: seq<Clause>, u0: int, u: int, r: Rules, arbs: map<int, bool>)
    requires Extendable(f, u0, u, r, arbs)
    ensures u0 <= u
  {}

  /** A body without its arbiters is a clause over old variables. */
  lemma BodyReady(bodies: seq<Clause>, arbs: map<int, bool>, variable: int, last: int, i: nat, u: int)
    requires AllSpeak(bodies, variable, last) && i < |bodies| && last < u
    ensures 0 !in bodies[i] && 0 !in Unassigned(bodies[i], arbs) && ClauseBelow(Unassigned(bodies[i], arbs), u)
  {
    assert Speaks(bodies[i], variable, last);
    UnassignedSpeaks(bodies[i], arbs, variable, last);
  }
}
