/** The functions that forcing clauses, arbiter values and defaults define, existential by existential. */
module SkolemFamily {
  import opened Basics
  import opened Dqbf
  import opened Arbiters
  import opened SkolemRules

  /** Bodies of forcing clauses by the literal they force, default clauses by variable, and the arbiter values. */
  datatype Candidate = Candidate(ext: map<int, set<int>>, forced: map<int, seq<Clause>>,
                                 defaults: map<int, seq<Clause>>, values: map<int, bool>)

  // ------------------------------------------------------- the order of the existentials

  /** y has fewer dependencies, or as many and the smaller name. */
  ghost predicate Precedes(q: Formula, y: int, x: int)
    requires x in q.deps && y in q.deps
  {
    |q.deps[y]| < |q.deps[x]| || (|q.deps[y]| == |q.deps[x]| && y < x)
  }

  /** Extended dependencies on existentials follow the order and are transitive. */
  ghost predicate Layered(q: Formula, ext: map<int, set<int>>) {
    && ext.Keys == q.deps.Keys && (forall x :: x in q.deps ==> x > 0 && ext[x] <= Prefix(q))
    && (forall x, y :: x in q.deps && y in q.deps && y in ext[x] ==> Precedes(q, y, x))
    && forall x, y :: x in q.deps && y in q.deps && y in ext[x] ==> ext[y] * q.deps.Keys <= ext[x]
  }

  /** What clauses for x may speak about. */
  ghost function Visible(q: Formula, ext: map<int, set<int>>, x: int): set<int> {
    if x in ext then ext[x] * Prefix(q) else {}
  }

  function BodiesOf(forced: map<int, seq<Clause>>, l: int): seq<Clause> {
    if l in forced then forced[l] else []
  }

  function RulesFor(k: Candidate, x: int): Rules {
    Rules(x, BodiesOf(k.forced, x), BodiesOf(k.forced, -x), BodiesOf(k.defaults, x))
  }

  // ------------------------------------------------------- clauses that fit the prefix

  /** Bodies speak about what the forced variable sees, and about arbiters. */
  ghost predicate ForcedFit(q: Formula, ext: map<int, set<int>>, arbs: set<int>, forced: map<int, seq<Clause>>) {
    forall l :: l in forced ==> Abs(l) in q.deps && AllOver(forced[l], Visible(q, ext, Abs(l)) + arbs)
  }

  /** A constant or a complete decision tree over what the variable sees. */
  ghost predicate DefaultFits(q: Formula, ext: map<int, set<int>>, x: int, ds: seq<Clause>) {
    && ds != [] && EndIn(ds, x) && (forall i :: 0 <= i < |ds| ==> OverVars(Body(ds[i]), Visible(q, ext, x)))
    && (|ds| == 1 ==> |ds[0]| == 1)
    && forall val: Valuation :: TreeDecides(val, Rules(x, [], [], ds))
  }

  ghost predicate DefaultsFit(q: Formula, ext: map<int, set<int>>, defaults: map<int, seq<Clause>>) {
    defaults.Keys == q.deps.Keys && forall x :: x in defaults ==> DefaultFits(q, ext, x, defaults[x])
  }

  ghost predicate Fits(q: Formula, k: Candidate) {
    && WellFormed(q) && ExtendedOk(q, k.ext) && Layered(q, k.ext) && k.values.Keys !! Prefix(q)
    && ForcedFit(q, k.ext, k.values.Keys, k.forced) && DefaultsFit(q, k.ext, k.defaults)
  }

  // ------------------------------------------------------- the family

  /** The value of x, from the values of the existentials that it sees. */
  ghost function Value(q: Formula, k: Candidate, x: int, u: set<int>): bool
    requires Layered(q, k.ext) && x in q.deps
    decreases |q.deps[x]|, x, 1
  {
    SkolemValue(k.values, Around(q, k, x, u), RulesFor(k, x))
  }

  /** The universals and the existentials that x sees. */
  ghost function Around(q: Formula, k: Candidate, x: int, u: set<int>): Valuation
    requires Layered(q, k.ext) && x in q.deps
    decreases |q.deps[x]|, x, 0
  {
    v => if v in q.universals then v in u else v in q.deps && v in k.ext[x] && Value(q, k, v, u)
  }

  ghost function RuleFamily(q: Formula, k: Candidate): Family
    requires Layered(q, k.ext)
  {
    (e, u) => e in q.deps && Value(q, k, e, u)
  }

  // ------------------------------------------------------- what the values depend on

  ghost predicate SameOn(v: Valuation, w: Valuation, range: set<int>) {
    forall x :: x in range ==> v(x) == w(x)
  }

  lemma FiresOver(cs: seq<Clause>, range: set<int>, v: Valuation, w: Valuation)
    requires AllOver(cs, range) && SameOn(v, w, range)
    ensures SomeFires(v, cs) <==> SomeFires(w, cs)
  {
    hide Sat, OverVars;
    forall i | 0 <= i < |cs| ensures Sat(v, cs[i]) <==> Sat(w, cs[i]) { SatAgrees(v, w, cs[i], range); }
  }

  lemma {:induction false} BodiesOver(cs: seq<Clause>, sign: bool, range: set<int>)
    requires forall i :: 0 <= i < |cs| ==> OverVars(Body(cs[i]), range)
    ensures AllOver(Bodies(cs, sign), range)
  {
    hide OverVars;
    if cs != [] { BodiesOver(cs[..|cs| - 1], sign, range); }
  }

  lemma UnderSame(values: map<int, bool>, v: Valuation, w: Valuation, range: set<int>)
    requires SameOn(v, w, range)
    ensures SameOn(Under(values, v), Under(values, w), range + values.Keys)
  {}

  /** The default sees what the variable sees. */
  lemma DefaultOver(q: Formula, k: Candidate, x: int, v: Valuation, w: Valuation)
    requires Fits(q, k) && x in q.deps && SameOn(v, w, Visible(q, k.ext, x))
    ensures DefaultValue(v, RulesFor(k, x)) == DefaultValue(w, RulesFor(k, x))
  {
    var ds := k.defaults[x];
    assert DefaultFits(q, k.ext, x, ds);
    BodiesOver(ds, true, Visible(q, k.ext, x));
    FiresOver(Bodies(ds, true), Visible(q, k.ext, x), v, w);
  }

  lemma ForcedOver(q: Formula, k: Candidate, l: int, v: Valuation, w: Valuation)
    requires ForcedFit(q, k.ext, k.values.Keys, k.forced) && SameOn(v, w, Visible(q, k.ext, Abs(l)))
    ensures SomeFires(Under(k.values, v), BodiesOf(k.forced, l)) <==> SomeFires(Under(k.values, w), BodiesOf(k.forced, l))
  {
    hide SomeFires, Under, Visible;
    UnderSame(k.values, v, w, Visible(q, k.ext, Abs(l)));
    FiresOver(BodiesOf(k.forced, l), Visible(q, k.ext, Abs(l)) + k.values.Keys, Under(k.values, v), Under(k.values, w));
  }

  lemma RulesOver(q: Formula, k: Candidate, x: int, v: Valuation, w: Valuation)
    requires Fits(q, k) && x in q.deps && SameOn(v, w, Visible(q, k.ext, x))
    ensures SkolemValue(k.values, v, RulesFor(k, x)) == SkolemValue(k.values, w, RulesFor(k, x))
    ensures NoClash(k.values, v, RulesFor(k, x)) == NoClash(k.values, w, RulesFor(k, x))
  {
    hide SameOn, SomeFires, DefaultValue, Under, Visible, BodiesOf;
    assert x > 0;
    DefaultOver(q, k, x, v, w);
    ForcedOver(q, k, x, v, w);
    ForcedOver(q, k, -x, v, w);
  }

  // ------------------------------------------------------- the family respects the dependencies

  /** What x sees: universals that it depends on, and existentials before it that depend on no more. */
  lemma VisibleVariable(q: Formula, ext: map<int, set<int>>, x: int, v: int)
    requires WellFormed(q) && ExtendedOk(q, ext) && Layered(q, ext) && x in q.deps && v in Visible(q, ext, x)
    ensures v in ext[x] && v != x
    ensures v in q.universals ==> v in q.deps[x]
    ensures v !in q.universals ==> v in q.deps && Precedes(q, v, x) && q.deps[v] <= q.deps[x]
  {
    assert ext[x] * q.universals == q.deps[x];
  }

  lemma SubsetSame(u: set<int>, w: set<int>, large: set<int>, small: set<int>)
    requires u * large == w * large && small <= large
    ensures u * small == w * small
  {
    assert u * small == (u * large) * small && w * small == (w * large) * small;
  }

  /** The values of x are the same for universal assignments that agree on its dependencies. */
  lemma {:induction false} ValueSame(q: Formula, k: Candidate, x: int, u: set<int>, w: set<int>)
    requires Fits(q, k) && x in q.deps && u * q.deps[x] == w * q.deps[x]
    ensures Value(q, k, x, u) == Value(q, k, x, w)
    decreases |q.deps[x]|, x
  {
    hide ForcedFit, DefaultsFit, Visible, SkolemValue;
    var a, b := Around(q, k, x, u), Around(q, k, x, w);
    forall v | v in Visible(q, k.ext, x) ensures a(v) == b(v) {
      VisibleVariable(q, k.ext, x, v);
      if v in q.universals {
        assert v in u <==> v in u * q.deps[x];
        assert v in w <==> v in w * q.deps[x];
      } else {
        SubsetSame(u, w, q.deps[x], q.deps[v]);
        assert x > 0 && v > 0;
        ValueSame(q, k, v, u, w);
      }
    }
    RulesOver(q, k, x, a, b);
  }

  lemma FamilyRespects(q: Formula, k: Candidate)
    requires Fits(q, k)
    ensures Respects(q, RuleFamily(q, k))
  {
    hide Fits, Value, Layered;
    LayeredPart(q, k);
    forall e, u: set<int>, v: set<int> | e in q.deps && u * q.deps[e] == v * q.deps[e]
      ensures RuleFamily(q, k)(e, u) == RuleFamily(q, k)(e, v)
    {
      ValueSame(q, k, e, u, v);
    }
  }

  lemma LayeredPart(q: Formula, k: Candidate)
    requires Fits(q, k)
    ensures Layered(q, k.ext)
  {}

  /** In the valuation that the family induces, every existential has the value that its rules give there. */
  lemma FamilyFollows(q: Formula, k: Candidate, aux: Valuation, u: set<int>, x: int)
    requires Fits(q, k) && x in q.deps
    ensures var val := Induced(q, RuleFamily(q, k), aux, u);
            && val(x) == SkolemValue(k.values, val, RulesFor(k, x))
            && NoClash(k.values, val, RulesFor(k, x)) == NoClash(k.values, Around(q, k, x, u), RulesFor(k, x))
  {
    var val := Induced(q, RuleFamily(q, k), aux, u);
    forall v | v in Visible(q, k.ext, x) ensures val(v) == Around(q, k, x, u)(v) {}
    RulesOver(q, k, x, val, Around(q, k, x, u));
    assert x !in q.universals;
  }

  /** What a candidate says about an existential is what the writers of certificates expect. */
  lemma RulesGood(q: Formula, k: Candidate, x: int, last: int)
    requires Fits(q, k) && x in q.deps && forall v :: v in Prefix(q) + k.values.Keys ==> v <= last
    requires forall a :: a in k.values ==> a > 0
    ensures GoodRules(RulesFor(k, x), k.values, last) && forall val: Valuation :: TreeDecides(val, RulesFor(k, x))
  {
    var range := Visible(q, k.ext, x);
    forall v | v in range ensures v != x && v > 0 { VisibleVariable(q, k.ext, x, v); }
    assert x > 0 && x in Prefix(q) && x in k.defaults && DefaultFits(q, k.ext, x, k.defaults[x]);
    assert range <= Prefix(q) && x !in range + k.values.Keys;
    forall v | v in range + k.values.Keys ensures v <= last { assert v in Prefix(q) + k.values.Keys; }
    assert x in Prefix(q) + k.values.Keys;
    assert Abs(-x) == x && AllOver(BodiesOf(k.forced, x), range + k.values.Keys) && AllOver(BodiesOf(k.forced, -x), range + k.values.Keys);
    hide Visible, Layered, ExtendedOk, DefaultsFit, TreeDecides, OverVars, ForcedFit;
    SpeakOver(BodiesOf(k.forced, x), range + k.values.Keys, x, last);
    SpeakOver(BodiesOf(k.forced, -x), range + k.values.Keys, x, last);
    forall val: Valuation ensures TreeDecides(val, RulesFor(k, x)) { SameDefaults(val, k, x); }
    forall i | 0 <= i < |k.defaults[x]| ensures Speaks(Body(k.defaults[x][i]), x, last) && Free(Body(k.defaults[x][i]), k.values) {
      OneSpeaks(Body(k.defaults[x][i]), range, x, last, k.values);
    }
  }

  lemma OneSpeaks(c: Clause, range: set<int>, x: int, last: int, values: map<int, bool>)
    requires OverVars(c, range) && x !in range && range !! values.Keys && forall v :: v in range ==> v <= last
    ensures Speaks(c, x, last) && Free(c, values)
  {}

  lemma SameDefaults(val: Valuation, k: Candidate, x: int)
    requires x in k.defaults && TreeDecides(val, Rules(x, [], [], k.defaults[x]))
    ensures TreeDecides(val, RulesFor(k, x))
  {}

  lemma SpeakOver(cs: seq<Clause>, range: set<int>, x: int, last: int)
    requires AllOver(cs, range) && x !in range && forall v :: v in range ==> v <= last
    ensures AllSpeak(cs, x, last)
  {
    forall i | 0 <= i < |cs| ensures Speaks(cs[i], x, last) { assert OverVars(cs[i], range); }
  }

  // ------------------------------------------------------- what is learnt

  /** Every forcing clause follows from the extraction clauses. */
  ghost predicate Entailing(extraction: seq<Clause>, forced: map<int, seq<Clause>>) {
    forall val: Valuation, l, i ::
      AllSat(val, extraction) && l in forced && 0 <= i < |forced[l]| ==> Sat(val, forced[l][i] + [l])
  }

  function AddBody(forced: map<int, seq<Clause>>, l: int, body: Clause): map<int, seq<Clause>> {
    forced[l := BodiesOf(forced, l) + [body]]
  }

  /** A forcing clause of the conflict, for one of its literals that sees the others, has been added. */
  ghost predicate ForcedByConflict(ext: map<int, set<int>>, c: Conflict, before: map<int, seq<Clause>>, after: map<int, seq<Clause>>) {
    exists l :: l in c.existentials && Abs(l) in ext && Sees(ext, c.existentials, Abs(l)) && ForcedOn(ext, c, l, before, after)
  }

  ghost predicate ForcedOn(ext: map<int, set<int>>, c: Conflict, l: int, before: map<int, seq<Clause>>, after: map<int, seq<Clause>>)
    requires Abs(l) in ext
  {
    after == AddBody(before, -l, Body(ForcingClause(ext, -l, c.existentials, c.universals, c.arbiters)))
  }

  lemma ForcedByLiteral(ext: map<int, set<int>>, c: Conflict, l: int, before: map<int, seq<Clause>>, after: map<int, seq<Clause>>)
    requires l in c.existentials && Abs(l) in ext && Sees(ext, c.existentials, Abs(l)) && ForcedOn(ext, c, l, before, after)
    ensures ForcedByConflict(ext, c, before, after)
  {
    hide ForcedOn, Sees;
  }

  lemma EntailingMore(extraction: seq<Clause>, more: seq<Clause>, forced: map<int, seq<Clause>>)
    requires Entailing(extraction, forced)
    ensures Entailing(extraction + more, forced)
  {
    hide Sat;
    forall val: Valuation, l, i | AllSat(val, extraction + more) && l in forced && 0 <= i < |forced[l]|
      ensures Sat(val, forced[l][i] + [l])
    {
      AllSatConcat(val, extraction, more);
    }
  }

  lemma EntailingNext(extraction: seq<Clause>, forced: map<int, seq<Clause>>, l: int, body: Clause)
    requires Entailing(extraction, forced) && forall val: Valuation :: AllSat(val, extraction) ==> Sat(val, body + [l])
    ensures Entailing(extraction, AddBody(forced, l, body))
  {
    hide Sat, AllSat;
    var more := AddBody(forced, l, body);
    forall val: Valuation, m, i | AllSat(val, extraction) && m in more && 0 <= i < |more[m]| ensures Sat(val, more[m][i] + [m]) {
      if m == l && i == |more[m]| - 1 {
        assert more[m][i] == body;
      } else {
        assert m in forced && more[m][i] == forced[m][i];
      }
    }
  }

  lemma LastHolds(val: Valuation, extraction: seq<Clause>, c: Clause)
    requires AllSat(val, extraction) && c in extraction
    ensures Sat(val, c)
  {
    hide Sat;
    var i :| 0 <= i < |extraction| && extraction[i] == c;
  }

  lemma FitNext(q: Formula, ext: map<int, set<int>>, arbs: set<int>, forced: map<int, seq<Clause>>, l: int, body: Clause)
    requires ForcedFit(q, ext, arbs, forced) && Abs(l) in q.deps && OverVars(body, Visible(q, ext, Abs(l)) + arbs)
    ensures ForcedFit(q, ext, arbs, AddBody(forced, l, body))
  {
    hide OverVars, Visible;
    var more := AddBody(forced, l, body);
    forall m | m in more ensures Abs(m) in q.deps && AllOver(more[m], Visible(q, ext, Abs(m)) + arbs) {
      forall i | 0 <= i < |more[m]| ensures OverVars(more[m][i], Visible(q, ext, Abs(m)) + arbs) {
        if m == l && i == |more[m]| - 1 {
          assert more[m][i] == body;
        } else {
          assert m in forced && more[m][i] == forced[m][i];
        }
      }
    }
  }

  lemma FitGrows(q: Formula, ext: map<int, set<int>>, arbs: set<int>, arbs2: set<int>, forced: map<int, seq<Clause>>)
    requires ForcedFit(q, ext, arbs, forced) && arbs <= arbs2
    ensures ForcedFit(q, ext, arbs2, forced)
  {
    hide Visible;
    forall l, i | l in forced && 0 <= i < |forced[l]| ensures OverVars(forced[l][i], Visible(q, ext, Abs(l)) + arbs2) {
      assert OverVars(forced[l][i], Visible(q, ext, Abs(l)) + arbs);
    }
  }

  /** A forcing clause that drops nothing says what its conflict says. */
  lemma UnreducedEntailed(q: Formula, ext: map<int, set<int>>, st: State, c: Conflict, l: int, val: Valuation)
    requires Learnable(q, ext, st, c, l) && AllSat(val, st.extraction)
    requires |Restricted(c.existentials + c.universals, ext[Abs(l)])| == |c.existentials| + |c.universals|
    ensures Sat(val, ForcingClause(ext, -l, c.existentials, c.universals, c.arbiters))
  {
    var ls := c.existentials + c.universals;
    var f := ForcingClause(ext, -l, c.existentials, c.universals, c.arbiters);
    RestrictedWhole(ls, ext[Abs(l)]);
    assert f == Negated(ls + c.arbiters) + [-l];
    hide Restricted, ForcingClause, Sees, AllSat, Negated;
    if Shaped(q, st.arbs, c) && Unsatisfiable(st.extraction, c) && !Sat(val, f) {
      NonZero(c.existentials, q.deps.Keys);
      NonZero(c.universals, q.universals);
      NonZero(c.arbiters, st.arbs.Keys);
      NegatedFails(val, ls + c.arbiters, [-l]);
      SplitTrue(val, c);
    } else if OverVars(f, Prefix(q) + st.arbs.Keys) && !NoComplement(f) {
      NonZero(f, Prefix(q) + st.arbs.Keys);
      ComplementHolds(val, f);
    }
  }

  lemma SplitTrue(val: Valuation, c: Conflict)
    requires AllTrue(val, c.existentials + c.universals + c.arbiters)
    ensures AllTrue(val, c.existentials) && AllTrue(val, c.universals) && AllTrue(val, c.arbiters)
  {
    AllTrueIn(val, c.existentials + c.universals + c.arbiters);
    AllTrueIn(val, c.existentials);
    AllTrueIn(val, c.universals);
    AllTrueIn(val, c.arbiters);
  }

  lemma {:induction false} RestrictedWhole(ls: seq<int>, range: set<int>)
    ensures |Restricted(ls, range)| <= |ls| && (|Restricted(ls, range)| == |ls| ==> Restricted(ls, range) == ls)
  {
    if ls != [] { RestrictedWhole(ls[..|ls| - 1], range); }
  }

  /** The body of a forcing clause fits the forced variable. */
  lemma ForcingFits(q: Formula, ext: map<int, set<int>>, st: State, c: Conflict, l: int)
    requires Learnable(q, ext, st, c, l) && Registered(q, st) && ext.Keys == q.deps.Keys
    ensures var f := ForcingClause(ext, -l, c.existentials, c.universals, c.arbiters);
            f != [] && Head(f) == -l && Body(f) + [-l] == f && OverVars(Body(f), Visible(q, ext, Abs(l)) + st.arbs.Keys)
  {
    var f := ForcingClause(ext, -l, c.existentials, c.universals, c.arbiters);
    var kept := Restricted(c.existentials + c.universals, ext[Abs(l)]);
    assert Body(f) == Negated(kept + c.arbiters);
    if Shaped(q, st.arbs, c) { ForcingVocabulary(q, ext, st.arbs, c, l); }
    assert OverVars(f, Prefix(q) + st.arbs.Keys);
    forall i | 0 <= i < |Body(f)| ensures Body(f)[i] != 0 && Abs(Body(f)[i]) in Visible(q, ext, Abs(l)) + st.arbs.Keys {
      assert Body(f)[i] == f[i] && Abs(f[i]) in Prefix(q) + st.arbs.Keys;
      if i < |kept| {
        assert kept[i] in kept && Body(f)[i] == -kept[i];
        RestrictedIn(c.existentials + c.universals, ext[Abs(l)], kept[i]);
      } else {
        assert f[i] == -c.arbiters[i - |kept|] && OverVars(c.arbiters, st.arbs.Keys);
      }
    }
  }

  /** The two clauses of an arbiter fit its existential. */
  lemma LinksFit(q: Formula, ext: map<int, set<int>>, st: State, a: int)
    requires Registered(q, st) && ExtendedOk(q, ext) && a in st.arbs
    ensures var b := st.arbs[a];
            && OverVars(Negated(b.annotation) + [-a], Visible(q, ext, b.existential) + st.arbs.Keys)
            && OverVars(Negated(b.annotation) + [a], Visible(q, ext, b.existential) + st.arbs.Keys)
            && b.existential in q.deps && b.existential > 0
  {
    var b := st.arbs[a];
    var e := b.existential;
    assert ext[e] * q.universals == q.deps[e] && Complete(b.annotation, q.deps[e]);
    forall i | 0 <= i < |b.annotation|
      ensures b.annotation[i] != 0 && Abs(b.annotation[i]) in Visible(q, ext, e)
    {
      assert b.annotation[i] in b.annotation;
      assert Abs(b.annotation[i]) in ext[e] * q.universals;
    }
  }
}
