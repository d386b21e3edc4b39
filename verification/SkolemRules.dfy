/** What forcing clauses and defaults say about one existential variable. */
module SkolemRules {
  import opened Dqbf

  /** Bodies of the forcing clauses for and against the variable, and default clauses that end in its literal. */
  datatype Rules = Rules(variable: int, positive: seq<Clause>, negative: seq<Clause>, defaults: seq<Clause>)

  /** The arbiter values replace those of the valuation. */
  ghost function Under(arbs: map<int, bool>, val: Valuation): Valuation {
    v => if v in arbs then arbs[v] else val(v)
  }

  /** A clause fires when its body leaves nothing but its last literal. */
  ghost predicate SomeFires(val: Valuation, bodies: seq<Clause>) {
    exists i :: 0 <= i < |bodies| && !Sat(val, bodies[i])
  }

  function Body(c: Clause): Clause { if c == [] then [] else c[..|c| - 1] }

  function Head(c: Clause): int { if c == [] then 0 else c[|c| - 1] }

  /** The bodies of the default clauses with a positive, or negative, last literal. */
  function Bodies(cs: seq<Clause>, sign: bool): seq<Clause> {
    if cs == [] then []
    else
      var c := cs[|cs| - 1];
      Bodies(cs[..|cs| - 1], sign) + if (Head(c) > 0) == sign then [Body(c)] else []
  }

  /** Without default clauses the default is true; a single one is a constant; otherwise the tree decides. */
  ghost predicate DefaultValue(val: Valuation, r: Rules) {
    if r.defaults == [] then true
    else if |r.defaults| == 1 then Head(r.defaults[0]) > 0
    else SomeFires(val, Bodies(r.defaults, true))
  }

  /** The forced value if a clause fires, the default otherwise. */
  ghost predicate SkolemValue(arbs: map<int, bool>, val: Valuation, r: Rules) {
    var w := Under(arbs, val);
    if SomeFires(w, r.positive) then true
    else if SomeFires(w, r.negative) then false
    else DefaultValue(val, r)
  }

  ghost predicate NoClash(arbs: map<int, bool>, val: Valuation, r: Rules) {
    !(SomeFires(Under(arbs, val), r.positive) && SomeFires(Under(arbs, val), r.negative))
  }

  /** A decision tree fires exactly one kind of default clause. */
  ghost predicate TreeDecides(val: Valuation, r: Rules) {
    |r.defaults| >= 2 ==> (SomeFires(val, Bodies(r.defaults, true)) != SomeFires(val, Bodies(r.defaults, false)))
  }

  /** The clause speaks about other variables, none beyond `last`. */
  ghost predicate Speaks(c: Clause, variable: int, last: int) {
    forall i :: 0 <= i < |c| ==> c[i] != 0 && Abs(c[i]) != variable && Abs(c[i]) <= last
  }

  ghost predicate AllSpeak(cs: seq<Clause>, variable: int, last: int) {
    forall i :: 0 <= i < |cs| ==> Speaks(cs[i], variable, last)
  }

  /** No arbiter occurs. */
  ghost predicate Free(c: Clause, arbs: map<int, bool>) {
    forall i :: 0 <= i < |c| ==> Abs(c[i]) !in arbs
  }

  /** The last literals are of the variable. */
  ghost predicate EndIn(cs: seq<Clause>, variable: int) {
    forall i :: 0 <= i < |cs| ==> cs[i] != [] && Abs(Head(cs[i])) == variable
  }

  /** Default clauses end in a literal of the variable and do not mention arbiters; a single one is that literal. */
  ghost predicate GoodDefaults(r: Rules, arbs: map<int, bool>, last: int) {
    && EndIn(r.defaults, r.variable)
    && (forall i :: 0 <= i < |r.defaults| ==> Speaks(Body(r.defaults[i]), r.variable, last) && Free(Body(r.defaults[i]), arbs))
    && (|r.defaults| == 1 ==> |r.defaults[0]| == 1)
  }

  ghost predicate GoodRules(r: Rules, arbs: map<int, bool>, last: int) {
    && 0 < r.variable <= last && r.variable !in arbs
    && AllSpeak(r.positive, r.variable, last) && AllSpeak(r.negative, r.variable, last) && GoodDefaults(r, arbs, last)
  }

  // ------------------------------------------------------- arbiters removed

  /** The literals without a value. */
  function Unassigned(c: Clause, arbs: map<int, bool>): Clause {
    if c == [] then []
    else Unassigned(c[..|c| - 1], arbs) + if Abs(c[|c| - 1]) in arbs then [] else [c[|c| - 1]]
  }

  predicate AssignedTrue(c: Clause, arbs: map<int, bool>) {
    exists i :: 0 <= i < |c| && Abs(c[i]) in arbs && arbs[Abs(c[i])] == (c[i] > 0)
  }

  lemma {:induction false} UnassignedIn(c: Clause, arbs: map<int, bool>, l: int)
    ensures l in Unassigned(c, arbs) <==> l in c && Abs(l) !in arbs
  {
    if c != [] {
      UnassignedIn(c[..|c| - 1], arbs, l);
      assert c == c[..|c| - 1] + [c[|c| - 1]];
    }
  }

  /** Removing arbiter literals keeps when the clause fires. */
  lemma RemovedFires(c: Clause, arbs: map<int, bool>, val: Valuation)
    ensures AssignedTrue(c, arbs) ==> Sat(Under(arbs, val), c)
    ensures !AssignedTrue(c, arbs) ==> (Sat(Under(arbs, val), c) <==> Sat(val, Unassigned(c, arbs)))
  {
    var w, r := Under(arbs, val), Unassigned(c, arbs);
    if i :| 0 <= i < |c| && Abs(c[i]) in arbs && arbs[Abs(c[i])] == (c[i] > 0) {
      assert True(w, c[i]);
    } else {
      SatIn(w, c);
      SatIn(val, r);
      forall l ensures (l in c && True(w, l)) <==> (l in r && True(val, l)) {
        UnassignedIn(c, arbs, l);
        if l in c && Abs(l) in arbs {
          var i :| 0 <= i < |c| && c[i] == l;
          assert !True(w, l);
        }
      }
    }
  }

  lemma UnassignedSpeaks(c: Clause, arbs: map<int, bool>, variable: int, last: int)
    requires Speaks(c, variable, last)
    ensures Speaks(Unassigned(c, arbs), variable, last) && Free(Unassigned(c, arbs), arbs)
  {
    var r := Unassigned(c, arbs);
    forall i | 0 <= i < |r| ensures r[i] in c && Abs(r[i]) !in arbs { UnassignedIn(c, arbs, r[i]); }
    forall i | 0 <= i < |r| ensures r[i] != 0 && Abs(r[i]) != variable && Abs(r[i]) <= last {
      assert r[i] in c;
      var k :| 0 <= k < |c| && c[k] == r[i];
    }
  }

  /** Valuations that agree on the variables of a clause agree on the clause. */
  lemma SpeaksSame(c: Clause, variable: int, last: int, v: Valuation, w: Valuation)
    requires Speaks(c, variable, last) && forall x :: x <= last && x != variable ==> v(x) == w(x)
    ensures Sat(v, c) <==> Sat(w, c)
  {
    forall i | 0 <= i < |c| ensures True(v, c[i]) == True(w, c[i]) {}
  }

  lemma FiresOne(val: Valuation, c: Clause)
    ensures SomeFires(val, [c]) <==> !Sat(val, c)
    ensures !SomeFires(val, [])
  {
    hide Sat;
    assert [c][0] == c;
  }

  lemma FiresConcat(val: Valuation, a: seq<Clause>, b: seq<Clause>)
    ensures SomeFires(val, a + b) <==> SomeFires(val, a) || SomeFires(val, b)
  {
    hide Sat;
    if SomeFires(val, a) {
      var i :| 0 <= i < |a| && !Sat(val, a[i]);
      assert (a + b)[i] == a[i];
    }
    if SomeFires(val, b) {
      var i :| 0 <= i < |b| && !Sat(val, b[i]);
      assert (a + b)[|a| + i] == b[i];
    }
  }

  lemma FiresSame(cs: seq<Clause>, variable: int, last: int, v: Valuation, w: Valuation)
    requires AllSpeak(cs, variable, last) && forall x :: x <= last && x != variable ==> v(x) == w(x)
    ensures SomeFires(v, cs) <==> SomeFires(w, cs)
  {
    hide Sat, Speaks;
    forall i | 0 <= i < |cs| ensures Sat(v, cs[i]) <==> Sat(w, cs[i]) { SpeaksSame(cs[i], variable, last, v, w); }
  }

  lemma {:induction false} BodiesSpeak(cs: seq<Clause>, sign: bool, variable: int, last: int, arbs: map<int, bool>)
    requires forall i :: 0 <= i < |cs| ==> Speaks(Body(cs[i]), variable, last) && Free(Body(cs[i]), arbs)
    ensures AllSpeak(Bodies(cs, sign), variable, last)
    ensures forall i :: 0 <= i < |Bodies(cs, sign)| ==> Free(Bodies(cs, sign)[i], arbs)
  {
    hide Speaks, Free;
    if cs != [] {
      BodiesSpeak(cs[..|cs| - 1], sign, variable, last, arbs);
    }
  }

  lemma FreeSame(c: Clause, arbs: map<int, bool>, val: Valuation)
    requires Free(c, arbs)
    ensures Sat(Under(arbs, val), c) <==> Sat(val, c)
  {
    forall i | 0 <= i < |c| ensures True(Under(arbs, val), c[i]) == True(val, c[i]) {}
  }

  lemma FreeFires(cs: seq<Clause>, arbs: map<int, bool>, val: Valuation)
    requires forall i :: 0 <= i < |cs| ==> Free(cs[i], arbs)
    ensures SomeFires(Under(arbs, val), cs) <==> SomeFires(val, cs)
  {
    hide Sat, Free, Under;
    forall i | 0 <= i < |cs| ensures Sat(Under(arbs, val), cs[i]) <==> Sat(val, cs[i]) { FreeSame(cs[i], arbs, val); }
  }

  /** The values of a variable's rules do not depend on the variable itself nor on what lies beyond `last`. */
  lemma RulesSame(r: Rules, arbs: map<int, bool>, last: int, v: Valuation, w: Valuation)
    requires GoodRules(r, arbs, last) && forall x :: x <= last && x != r.variable ==> v(x) == w(x)
    ensures SkolemValue(arbs, v, r) == SkolemValue(arbs, w, r)
    ensures NoClash(arbs, v, r) == NoClash(arbs, w, r) && TreeDecides(v, r) == TreeDecides(w, r)
  {
    FiresSame(r.positive, r.variable, last, Under(arbs, v), Under(arbs, w));
    FiresSame(r.negative, r.variable, last, Under(arbs, v), Under(arbs, w));
    BodiesSpeak(r.defaults, true, r.variable, last, arbs);
    BodiesSpeak(r.defaults, false, r.variable, last, arbs);
    FiresSame(Bodies(r.defaults, true), r.variable, last, v, w);
    FiresSame(Bodies(r.defaults, false), r.variable, last, v, w);
    hide SomeFires, Bodies, Sat, AllSpeak, GoodDefaults;
  }

  // ------------------------------------------------------- default clauses

  /** A clause whose last literal has the sign fires. */
  ghost predicate KindFires(cs: seq<Clause>, sign: bool, val: Valuation) {
    exists i :: 0 <= i < |cs| && (Head(cs[i]) > 0) == sign && !Sat(val, Body(cs[i]))
  }

  lemma KindNext(cs: seq<Clause>, sign: bool, val: Valuation)
    requires cs != []
    ensures var n := |cs| - 1;
            KindFires(cs, sign, val) <==> KindFires(cs[..n], sign, val) || ((Head(cs[n]) > 0) == sign && !Sat(val, Body(cs[n])))
  {
    hide Sat, Body, Head;
    var n := |cs| - 1;
    if KindFires(cs[..n], sign, val) {
      var i :| 0 <= i < n && (Head(cs[..n][i]) > 0) == sign && !Sat(val, Body(cs[..n][i]));
      assert cs[i] == cs[..n][i];
    }
  }

  lemma {:induction false} BodiesIn(cs: seq<Clause>, sign: bool, val: Valuation)
    ensures SomeFires(val, Bodies(cs, sign)) <==> KindFires(cs, sign, val)
  {
    hide Sat, Body, Head, SomeFires, KindFires;
    if cs == [] {
      NoKind(val, sign);
      FiresOne(val, []);
    } else {
      var n := |cs| - 1;
      BodiesIn(cs[..n], sign, val);
      KindNext(cs, sign, val);
      FiresConcat(val, Bodies(cs[..n], sign), if (Head(cs[n]) > 0) == sign then [Body(cs[n])] else []);
      FiresOne(val, Body(cs[n]));
    }
  }

  lemma NoKind(val: Valuation, sign: bool)
    ensures !KindFires([], sign, val)
  {}

  /** A default clause holds if it does not fire or the variable has its sign. */
  lemma DefaultClause(val: Valuation, c: Clause, variable: int)
    requires c != [] && Abs(Head(c)) == variable
    ensures Sat(val, c) <==> Sat(val, Body(c)) || val(variable) == (Head(c) > 0)
  {
    assert c == Body(c) + [Head(c)];
    SatConcat(val, Body(c), [Head(c)]);
    UnitMeans(val, Head(c));
  }

  /** The default clauses of a tree hold exactly when the variable has the default value. */
  lemma DefaultsMean(val: Valuation, r: Rules)
    requires EndIn(r.defaults, r.variable) && |r.defaults| >= 2 && TreeDecides(val, r)
    ensures AllSat(val, r.defaults) <==> val(r.variable) == DefaultValue(val, r)
  {
    BodiesIn(r.defaults, true, val);
    BodiesIn(r.defaults, false, val);
    hide Sat, Bodies, SomeFires, Body, Head;
    forall i | 0 <= i < |r.defaults|
      ensures Sat(val, r.defaults[i]) <==> Sat(val, Body(r.defaults[i])) || val(r.variable) == (Head(r.defaults[i]) > 0)
    {
      DefaultClause(val, r.defaults[i], r.variable);
    }
  }

  /** What the last clauses of a tree say: forced values, and the default unless something fires. */
  ghost predicate TreeHolds(val: Valuation, r: Rules, arbs: map<int, bool>) {
    var w := Under(arbs, val);
    && (SomeFires(w, r.positive) ==> val(r.variable))
    && (SomeFires(w, r.negative) ==> !val(r.variable))
    && (SomeFires(w, r.positive) || SomeFires(w, r.negative) || AllSat(val, r.defaults))
  }
}
