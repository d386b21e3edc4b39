/** The checks of a candidate: whether it can fail the matrix, and whether its forcing clauses contradict each other. */
module ValidityCheck {
  import opened Basics
  import opened Dqbf
  import opened Arbiters
  import opened SkolemRules
  import opened SkolemFamily

  // ------------------------------------------------------- the validity query

  ghost predicate AgreesWith(val: Valuation, values: map<int, bool>) {
    forall a :: a in values ==> val(a) == values[a]
  }

  /** Forced values where a clause fires, default clauses elsewhere. */
  ghost predicate Follows(q: Formula, k: Candidate, val: Valuation) {
    AgreesWith(val, k.values) && forall x :: x in q.deps ==> TreeHolds(val, RulesFor(k, x), k.values)
  }

  ghost predicate Fails(q: Formula, k: Candidate, val: Valuation) {
    Follows(q, k, val) && !AllSat(val, q.matrix)
  }

  // ------------------------------------------------------- the consistency query

  /** Existentials with a variable for each sign; the other variables have a value. */
  datatype Rails = Rails(pos: Valuation, neg: Valuation, rest: Valuation)

  ghost predicate RailTrue(q: Formula, e: Rails, l: int) {
    if Abs(l) in q.deps then (if l > 0 then e.pos(l) else e.neg(-l)) else True(e.rest, l)
  }

  /** The negation of every literal of the body is true. */
  ghost predicate RailFails(q: Formula, e: Rails, body: Clause) {
    forall i :: 0 <= i < |body| ==> RailTrue(q, e, -body[i])
  }

  ghost predicate RailFires(q: Formula, e: Rails, bodies: seq<Clause>) {
    exists i :: 0 <= i < |bodies| && RailFails(q, e, bodies[i])
  }

  /** A sign is set if a forcing clause fires for it, and only then or if no clause fires and a default clause does. */
  ghost predicate Driven(q: Formula, k: Candidate, e: Rails, x: int) {
    var r := RulesFor(k, x);
    var p, n := RailFires(q, e, r.positive), RailFires(q, e, r.negative);
    && (e.pos(x) || e.neg(x)) && (p ==> e.pos(x)) && (n ==> e.neg(x))
    && (e.pos(x) && !p ==> !n && RailFires(q, e, Bodies(r.defaults, true)))
    && (e.neg(x) && !n ==> !p && RailFires(q, e, Bodies(r.defaults, false)))
  }

  ghost predicate Torn(e: Rails, x: int) { e.pos(x) && e.neg(x) }

  /** Some existential gets both signs. */
  ghost predicate Clashes(q: Formula, k: Candidate, e: Rails) {
    && AgreesWith(e.rest, k.values) && (forall x :: x in q.deps ==> Driven(q, k, e, x))
    && exists x :: x in q.deps && Torn(e, x)
  }

  // ------------------------------------------------------- the solvers behind the checks

  type ValidityQuery = Candidate -> Option<Valuation>
  type ConsistencyQuery = Candidate -> Option<Rails>

  /** A subset of the conflict that is still unsatisfiable with the clauses, or nothing. */
  type CoreFinder = (seq<Clause>, Conflict) -> Option<Conflict>

  ghost predicate AnswersValidity(q: Formula, query: ValidityQuery) {
    forall k :: if query(k).Some? then Fails(q, k, query(k).value) else forall val: Valuation :: !Fails(q, k, val)
  }

  ghost predicate AnswersConsistency(q: Formula, query: ConsistencyQuery) {
    forall k :: if query(k).Some? then Clashes(q, k, query(k).value) else forall e: Rails :: !Clashes(q, k, e)
  }

  ghost predicate Within(k: Conflict, c: Conflict) {
    && k.complete == c.complete && (forall l :: l in k.existentials ==> l in c.existentials)
    && (forall l :: l in k.universals ==> l in c.universals) && forall l :: l in k.arbiters ==> l in c.arbiters
  }

  ghost predicate FindsCores(core: CoreFinder) {
    forall f, c :: if core(f, c).Some? then Within(core(f, c).value, c) && Unsatisfiable(f, core(f, c).value)
                   else !Unsatisfiable(f, c)
  }

  /** Solvers that answer so exist for every formula, true or false. */
  lemma SolversExist(q: Formula)
    ensures exists v: ValidityQuery, c: ConsistencyQuery, f: CoreFinder ::
              AnswersValidity(q, v) && AnswersConsistency(q, c) && FindsCores(f)
  {
    var v: ValidityQuery := k => SomeFailure(q, k);
    var c: ConsistencyQuery := k => SomeClash(q, k);
    var f: CoreFinder := (f, c) => TheCore(f, c);
    assert AnswersValidity(q, v) && AnswersConsistency(q, c) && FindsCores(f);
  }

  ghost function SomeFailure(q: Formula, k: Candidate): Option<Valuation> {
    if exists val: Valuation :: Fails(q, k, val) then
      var val: Valuation :| Fails(q, k, val);
      Some(val)
    else None
  }

  ghost function SomeClash(q: Formula, k: Candidate): Option<Rails> {
    if exists e: Rails :: Clashes(q, k, e) then
      var e: Rails :| Clashes(q, k, e);
      Some(e)
    else None
  }

  ghost function TheCore(f: seq<Clause>, c: Conflict): Option<Conflict> {
    if Unsatisfiable(f, c) then Some(c) else None
  }

  // ------------------------------------------------------- no conflict in rails means plain values

  /** The rails are the valuation, on what x sees and on arbiters. */
  ghost predicate Reads(q: Formula, k: Candidate, x: int, e: Rails, val: Valuation) {
    && (forall v :: v in Visible(q, k.ext, x) && v in q.deps ==> e.pos(v) == val(v) && e.neg(v) != val(v))
    && (forall v :: v in Visible(q, k.ext, x) && v !in q.deps ==> e.rest(v) == val(v))
    && AgreesWith(e.rest, k.values)
  }

  lemma RailLiteral(q: Formula, k: Candidate, x: int, e: Rails, val: Valuation, l: int)
    requires Reads(q, k, x, e, val) && l != 0 && k.values.Keys !! Prefix(q)
    requires Abs(l) in Visible(q, k.ext, x) + k.values.Keys
    ensures RailTrue(q, e, -l) <==> !True(Under(k.values, val), l)
  {}

  lemma RailBody(q: Formula, k: Candidate, x: int, e: Rails, val: Valuation, c: Clause)
    requires Reads(q, k, x, e, val) && k.values.Keys !! Prefix(q)
    requires OverVars(c, Visible(q, k.ext, x) + k.values.Keys)
    ensures RailFails(q, e, c) <==> !Sat(Under(k.values, val), c)
  {
    hide RailTrue, Reads, Under, Visible;
    forall i | 0 <= i < |c| ensures RailTrue(q, e, -c[i]) <==> !True(Under(k.values, val), c[i]) {
      RailLiteral(q, k, x, e, val, c[i]);
    }
  }

  lemma RailBodies(q: Formula, k: Candidate, x: int, e: Rails, val: Valuation, cs: seq<Clause>)
    requires Reads(q, k, x, e, val) && k.values.Keys !! Prefix(q)
    requires AllOver(cs, Visible(q, k.ext, x) + k.values.Keys)
    ensures RailFires(q, e, cs) <==> SomeFires(Under(k.values, val), cs)
  {
    hide RailFails, Reads, Sat, OverVars, Visible, Under;
    forall i | 0 <= i < |cs| ensures RailFails(q, e, cs[i]) <==> !Sat(Under(k.values, val), cs[i]) {
      RailBody(q, k, x, e, val, cs[i]);
    }
  }

  lemma MoreOver(cs: seq<Clause>, range: set<int>, more: set<int>)
    requires AllOver(cs, range) && range <= more
    ensures AllOver(cs, more)
  {}

  /** Default clauses fire in the rails as in the valuation. */
  lemma RailDefaults(q: Formula, k: Candidate, x: int, e: Rails, val: Valuation, sign: bool)
    requires Fits(q, k) && x in q.deps && Reads(q, k, x, e, val)
    ensures RailFires(q, e, Bodies(k.defaults[x], sign)) <==> SomeFires(val, Bodies(k.defaults[x], sign))
  {
    var ds := k.defaults[x];
    assert DefaultFits(q, k.ext, x, ds);
    BodiesOver(ds, sign, Visible(q, k.ext, x));
    hide RailFires, SomeFires, Reads, Bodies;
    MoreOver(Bodies(ds, sign), Visible(q, k.ext, x), Visible(q, k.ext, x) + k.values.Keys);
    RailBodies(q, k, x, e, val, Bodies(ds, sign));
    assert SameOn(Under(k.values, val), val, Visible(q, k.ext, x));
    FiresOver(Bodies(ds, sign), Visible(q, k.ext, x), Under(k.values, val), val);
  }

  lemma RailForced(q: Formula, k: Candidate, x: int, e: Rails, val: Valuation, l: int)
    requires Fits(q, k) && x in q.deps && Reads(q, k, x, e, val) && Abs(l) == x
    ensures RailFires(q, e, BodiesOf(k.forced, l)) <==> SomeFires(Under(k.values, val), BodiesOf(k.forced, l))
  {
    hide RailFires, SomeFires, Reads;
    RailBodies(q, k, x, e, val, BodiesOf(k.forced, l));
  }

  /** One default value, and clauses for it that fire. */
  lemma DefaultFires(q: Formula, ext: map<int, set<int>>, x: int, ds: seq<Clause>, val: Valuation, sign: bool)
    requires DefaultFits(q, ext, x, ds)
    ensures SomeFires(val, Bodies(ds, sign)) <==> sign == DefaultValue(val, Rules(x, [], [], ds))
  {
    var r := Rules(x, [], [], ds);
    assert TreeDecides(val, r);
    if |ds| == 1 {
      assert Body(ds[0]) == [];
      assert Bodies(ds, sign) == if (Head(ds[0]) > 0) == sign then [[]] else [];
      FiresOne(val, []);
    }
  }

  // ------------------------------------------------------- rails for an assignment of the universals

  ghost function Plain(q: Formula, e: Rails): Valuation {
    v => if v in q.deps then e.pos(v) else e.rest(v)
  }

  /** The signs that x gets, both if clauses for both fire. */
  ghost function Signs(q: Formula, k: Candidate, x: int, u: set<int>): (bool, bool)
    requires Layered(q, k.ext) && x in q.deps
    decreases |q.deps[x]|, x, 1
  {
    var e, r := RailsAround(q, k, x, u), RulesFor(k, x);
    var p, n := RailFires(q, e, r.positive), RailFires(q, e, r.negative);
    if p || n then (p, n) else (DefaultValue(Plain(q, e), r), !DefaultValue(Plain(q, e), r))
  }

  ghost function RailsAround(q: Formula, k: Candidate, x: int, u: set<int>): Rails
    requires Layered(q, k.ext) && x in q.deps
    decreases |q.deps[x]|, x, 0
  {
    Rails(v => v in q.deps && v in k.ext[x] && Signs(q, k, v, u).0, v => v in q.deps && v in k.ext[x] && Signs(q, k, v, u).1,
          Rest(q, k, u))
  }

  ghost function Rest(q: Formula, k: Candidate, u: set<int>): Valuation {
    v => if v in q.universals then v in u else v in k.values && k.values[v]
  }

  ghost function RailsOf(q: Formula, k: Candidate, u: set<int>): Rails
    requires Layered(q, k.ext)
  {
    Rails(v => v in q.deps && Signs(q, k, v, u).0, v => v in q.deps && Signs(q, k, v, u).1, Rest(q, k, u))
  }

  /** The rails agree on what x sees and on arbiters. */
  ghost predicate SameRails(q: Formula, k: Candidate, x: int, e: Rails, f: Rails) {
    && e.rest == f.rest
    && forall v :: v in Visible(q, k.ext, x) && v in q.deps ==> e.pos(v) == f.pos(v) && e.neg(v) == f.neg(v)
  }

  lemma SameBodies(q: Formula, k: Candidate, x: int, e: Rails, f: Rails, cs: seq<Clause>)
    requires SameRails(q, k, x, e, f) && AllOver(cs, Visible(q, k.ext, x) + k.values.Keys) && k.values.Keys !! Prefix(q)
    ensures RailFires(q, e, cs) <==> RailFires(q, f, cs)
  {
    hide RailTrue, Visible, SameRails;
    forall i | 0 <= i < |cs| ensures RailFails(q, e, cs[i]) <==> RailFails(q, f, cs[i]) {
      SameBody(q, k, x, e, f, cs[i]);
    }
  }

  lemma SameBody(q: Formula, k: Candidate, x: int, e: Rails, f: Rails, c: Clause)
    requires SameRails(q, k, x, e, f) && OverVars(c, Visible(q, k.ext, x) + k.values.Keys) && k.values.Keys !! Prefix(q)
    ensures RailFails(q, e, c) <==> RailFails(q, f, c)
  {
    forall i | 0 <= i < |c| ensures RailTrue(q, e, -c[i]) <==> RailTrue(q, f, -c[i]) {
      assert Abs(c[i]) in Visible(q, k.ext, x) + k.values.Keys;
    }
  }

  lemma SameRules(q: Formula, k: Candidate, x: int, e: Rails, f: Rails)
    requires Fits(q, k) && x in q.deps && SameRails(q, k, x, e, f)
    ensures var r := RulesFor(k, x);
            && RailFires(q, e, r.positive) == RailFires(q, f, r.positive)
            && RailFires(q, e, r.negative) == RailFires(q, f, r.negative)
            && RailFires(q, e, Bodies(r.defaults, true)) == RailFires(q, f, Bodies(r.defaults, true))
            && RailFires(q, e, Bodies(r.defaults, false)) == RailFires(q, f, Bodies(r.defaults, false))
  {
    var ds := k.defaults[x];
    assert x > 0 && DefaultFits(q, k.ext, x, ds);
    BodiesOver(ds, true, Visible(q, k.ext, x));
    BodiesOver(ds, false, Visible(q, k.ext, x));
    hide RailFires, SameRails, Bodies, Visible;
    MoreOver(Bodies(ds, true), Visible(q, k.ext, x), Visible(q, k.ext, x) + k.values.Keys);
    MoreOver(Bodies(ds, false), Visible(q, k.ext, x), Visible(q, k.ext, x) + k.values.Keys);
    SameBodies(q, k, x, e, f, Bodies(ds, true));
    SameBodies(q, k, x, e, f, Bodies(ds, false));
    SameBodies(q, k, x, e, f, BodiesOf(k.forced, x));
    SameBodies(q, k, x, e, f, BodiesOf(k.forced, -x));
  }

  /** A clause that fires under the positive signs fires in the rails: each existential has a sign. */
  lemma PlainFires(q: Formula, k: Candidate, x: int, e: Rails, cs: seq<Clause>)
    requires AllOver(cs, Visible(q, k.ext, x)) && SomeFires(Plain(q, e), cs)
    requires forall v :: v in Visible(q, k.ext, x) && v in q.deps ==> e.pos(v) || e.neg(v)
    ensures RailFires(q, e, cs)
  {
    var i :| 0 <= i < |cs| && !Sat(Plain(q, e), cs[i]);
    assert OverVars(cs[i], Visible(q, k.ext, x));
    forall j | 0 <= j < |cs[i]| ensures RailTrue(q, e, -cs[i][j]) {
      assert !True(Plain(q, e), cs[i][j]);
    }
    assert RailFails(q, e, cs[i]);
  }

  lemma SignsDrive(q: Formula, k: Candidate, u: set<int>, x: int)
    requires Fits(q, k) && x in q.deps
    ensures Driven(q, k, RailsOf(q, k, u), x)
  {
    var e, f, r := RailsAround(q, k, x, u), RailsOf(q, k, u), RulesFor(k, x);
    var d := DefaultValue(Plain(q, e), r);
    assert SameRails(q, k, x, e, f);
    assert x > 0 && DefaultFits(q, k.ext, x, k.defaults[x]);
    DefaultFires(q, k.ext, x, k.defaults[x], Plain(q, e), d);
    BodiesOver(k.defaults[x], d, Visible(q, k.ext, x));
    PlainFires(q, k, x, e, Bodies(k.defaults[x], d));
    hide RailFires, SameRails, Bodies, Visible;
    SameRules(q, k, x, e, f);
  }

  /** Without torn existentials, the signs are the values that the family has, and no clauses contradict each other. */
  lemma {:induction false} SignsAreValues(q: Formula, k: Candidate, u: set<int>, x: int)
    requires Fits(q, k) && x in q.deps && forall y :: y in q.deps ==> !Torn(RailsOf(q, k, u), y)
    ensures Signs(q, k, x, u) == (Value(q, k, x, u), !Value(q, k, x, u))
    ensures NoClash(k.values, Around(q, k, x, u), RulesFor(k, x))
    decreases |q.deps[x]|, x
  {
    hide ForcedFit, DefaultsFit, Visible, Torn, Signs, Value, NoClash, RailsOf;
    assert x > 0;
    forall v | v in Visible(q, k.ext, x) && v in q.deps
      ensures v in k.ext[x] && Signs(q, k, v, u) == (Value(q, k, v, u), !Value(q, k, v, u))
    {
      VisibleVariable(q, k.ext, x, v);
      SignsAreValues(q, k, u, v);
    }
    AroundReads(q, k, u, x);
    SignsRead(q, k, u, x);
  }

  lemma AroundReads(q: Formula, k: Candidate, u: set<int>, x: int)
    requires Fits(q, k) && x in q.deps
    requires forall v :: v in Visible(q, k.ext, x) && v in q.deps ==>
               v in k.ext[x] && Signs(q, k, v, u) == (Value(q, k, v, u), !Value(q, k, v, u))
    ensures Reads(q, k, x, RailsAround(q, k, x, u), Around(q, k, x, u))
  {
    hide ForcedFit, DefaultsFit, ExtendedOk, Signs, Value;
  }

  lemma SignsRead(q: Formula, k: Candidate, u: set<int>, x: int)
    requires Fits(q, k) && x in q.deps && !Torn(RailsOf(q, k, u), x)
    requires Reads(q, k, x, RailsAround(q, k, x, u), Around(q, k, x, u))
    ensures Signs(q, k, x, u) == (Value(q, k, x, u), !Value(q, k, x, u))
    ensures NoClash(k.values, Around(q, k, x, u), RulesFor(k, x))
  {
    var e, val := RailsAround(q, k, x, u), Around(q, k, x, u);
    assert x > 0;
    hide RailFires, SomeFires, Reads, Visible, DefaultValue, Fits, Around, RailsAround;
    RailForced(q, k, x, e, val, x);
    RailForced(q, k, x, e, val, -x);
    PlainReads(q, k, x, e, val);
  }

  lemma PlainReads(q: Formula, k: Candidate, x: int, e: Rails, val: Valuation)
    requires Fits(q, k) && x in q.deps && Reads(q, k, x, e, val)
    ensures DefaultValue(Plain(q, e), RulesFor(k, x)) == DefaultValue(val, RulesFor(k, x))
  {
    assert SameOn(Plain(q, e), val, Visible(q, k.ext, x));
    DefaultOver(q, k, x, Plain(q, e), val);
  }

  // ------------------------------------------------------- a candidate that passes both checks

  lemma DefaultsHold(q: Formula, ext: map<int, set<int>>, x: int, ds: seq<Clause>, val: Valuation)
    requires DefaultFits(q, ext, x, ds) && x > 0 && val(x) == DefaultValue(val, Rules(x, [], [], ds))
    ensures AllSat(val, ds)
  {
    var r := Rules(x, [], [], ds);
    assert TreeDecides(val, r);
    if |ds| == 1 {
      assert ds[0] == [Head(ds[0])] && ds == [ds[0]];
      UnitMeans(val, Head(ds[0]));
    } else {
      DefaultsMean(val, r);
    }
  }

  lemma RightFollows(q: Formula, k: Candidate, val: Valuation, x: int)
    requires Fits(q, k) && x in q.deps && NoClash(k.values, val, RulesFor(k, x))
    requires val(x) == SkolemValue(k.values, val, RulesFor(k, x))
    ensures TreeHolds(val, RulesFor(k, x), k.values)
  {
    assert x > 0 && DefaultFits(q, k.ext, x, k.defaults[x]);
    hide DefaultFits, SomeFires, Bodies, AllSat;
    if val(x) == DefaultValue(val, RulesFor(k, x)) {
      DefaultsHold(q, k.ext, x, k.defaults[x], val);
    }
  }

  /** If no clauses contradict each other, the family's valuation is one that the validity query is about. */
  lemma FamilyInQuery(q: Formula, k: Candidate, u: set<int>)
    requires Fits(q, k) && forall y :: y in q.deps ==> !Torn(RailsOf(q, k, u), y)
    ensures Follows(q, k, Induced(q, RuleFamily(q, k), Rest(q, k, u), u))
  {
    hide Torn, Value, NoClash, SkolemValue, TreeHolds, ForcedFit, DefaultsFit, ExtendedOk, RailsOf;
    var val := Induced(q, RuleFamily(q, k), Rest(q, k, u), u);
    forall x | x in q.deps ensures TreeHolds(val, RulesFor(k, x), k.values) {
      FamilyFollows(q, k, Rest(q, k, u), u, x);
      SignsAreValues(q, k, u, x);
      RightFollows(q, k, val, x);
    }
    forall a | a in k.values ensures val(a) == k.values[a] { assert a !in Prefix(q); }
  }

  lemma NothingTorn(q: Formula, k: Candidate, u: set<int>)
    requires Fits(q, k) && forall e: Rails :: !Clashes(q, k, e)
    ensures forall y :: y in q.deps ==> !Torn(RailsOf(q, k, u), y)
  {
    hide Driven, Torn, Signs;
    var e := RailsOf(q, k, u);
    forall x | x in q.deps ensures Driven(q, k, e, x) { SignsDrive(q, k, u, x); }
    assert AgreesWith(e.rest, k.values);
    assert !Clashes(q, k, e);
  }

  /** The functions of a candidate that passes both checks are a model of the formula. */
  lemma PassedWins(q: Formula, k: Candidate)
    requires Fits(q, k) && (forall e: Rails :: !Clashes(q, k, e)) && forall val: Valuation :: !Fails(q, k, val)
    ensures Winning(q, RuleFamily(q, k))
  {
    FamilyRespects(q, k);
    LayeredPart(q, k);
    var s := RuleFamily(q, k);
    assert AllOver(q.matrix, Prefix(q));
    hide Fits, Clashes, Follows, Respects, RuleFamily, Sat, OverVars, Torn, RailsOf, Rest;
    forall u: set<int>, aux: Valuation | u <= q.universals ensures AllSat(Induced(q, s, aux, u), q.matrix) {
      NothingTorn(q, k, u);
      FamilyInQuery(q, k, u);
      var val := Induced(q, s, Rest(q, k, u), u);
      assert !Fails(q, k, val);
      forall i | 0 <= i < |q.matrix| ensures Sat(Induced(q, s, aux, u), q.matrix[i]) {
        assert Sat(val, q.matrix[i]);
        SatAgrees(val, Induced(q, s, aux, u), q.matrix[i], Prefix(q));
      }
    }
  }

  // ------------------------------------------------------- failures are conflicts

  /** The literals of the variables that are true. */
  function Assigned(val: Valuation, variables: seq<int>): seq<int> {
    seq(|variables|, i requires 0 <= i < |variables| => if val(variables[i]) then variables[i] else -variables[i])
  }

  lemma AssignedIn(val: Valuation, variables: seq<int>, l: int)
    requires forall v :: v in variables ==> v > 0
    ensures l in Assigned(val, variables) <==> Abs(l) in variables && True(val, l)
  {
    var ls := Assigned(val, variables);
    if l in ls {
      var i :| 0 <= i < |ls| && ls[i] == l;
      assert variables[i] in variables;
    }
    if Abs(l) in variables && True(val, l) {
      var i :| 0 <= i < |variables| && variables[i] == Abs(l);
      assert ls[i] == l;
    }
  }

  lemma AssignedSame(val: Valuation, variables: seq<int>, w: Valuation, v: int)
    requires (forall x :: x in variables ==> x > 0) && AllTrue(w, Assigned(val, variables)) && v in variables
    ensures w(v) == val(v)
  {
    var i :| 0 <= i < |variables| && variables[i] == v;
    assert True(w, Assigned(val, variables)[i]);
  }

  /** The lists hold the variables of the formula. */
  ghost predicate Lists(q: Formula, existentials: seq<int>, universals: seq<int>) {
    && (forall v :: v in existentials <==> v in q.deps) && (forall v :: v in universals <==> v in q.universals)
    && (forall v :: v in existentials ==> v > 0) && forall v :: v in universals ==> v > 0
  }

  lemma WholeConflict(q: Formula, val: Valuation, existentials: seq<int>, universals: seq<int>, extraction: seq<Clause>, bs: seq<int>)
    requires WellFormed(q) && Lists(q, existentials, universals) && !AllSat(val, q.matrix) && q.matrix <= extraction
    ensures Unsatisfiable(extraction, Conflict(Assigned(val, existentials), Assigned(val, universals), bs, Assigned(val, universals)))
  {
    var i :| 0 <= i < |q.matrix| && !Sat(val, q.matrix[i]);
    hide Sat;
    assert OverVars(q.matrix[i], Prefix(q));
    forall w: Valuation | AllSat(w, extraction) && AllTrue(w, Assigned(val, existentials)) && AllTrue(w, Assigned(val, universals))
      ensures false
    {
      forall v | v in Prefix(q) ensures val(v) == w(v) {
        if v in universals { AssignedSame(val, universals, w, v); } else { AssignedSame(val, existentials, w, v); }
      }
      assert q.matrix[i] == extraction[i] && Sat(w, extraction[i]);
      SatAgrees(val, w, q.matrix[i], Prefix(q));
    }
  }

  /** The literal l is forced where its clause fires. */
  lemma ForcedHolds(extraction: seq<Clause>, forced: map<int, seq<Clause>>, l: int, w: Valuation)
    requires Entailing(extraction, forced) && AllSat(w, extraction) && SomeFires(w, BodiesOf(forced, l))
    ensures True(w, l)
  {
    var i :| 0 <= i < |BodiesOf(forced, l)| && !Sat(w, BodiesOf(forced, l)[i]);
    assert Sat(w, forced[l][i] + [l]);
    SatConcat(w, forced[l][i], [l]);
    UnitMeans(w, l);
  }

  /** If x is torn and nothing that it sees is, clauses for both signs fire: two defaults cannot. */
  lemma TornFires(q: Formula, k: Candidate, e: Rails, x: int, w: Valuation)
    requires Fits(q, k) && x in q.deps && Driven(q, k, e, x) && Torn(e, x) && Reads(q, k, x, e, w)
    ensures SomeFires(Under(k.values, w), BodiesOf(k.forced, x)) && SomeFires(Under(k.values, w), BodiesOf(k.forced, -x))
  {
    assert x > 0 && DefaultFits(q, k.ext, x, k.defaults[x]);
    hide SomeFires, RailFires, Reads, DefaultFits, Bodies, Fits;
    RailForced(q, k, x, e, w, x);
    RailForced(q, k, x, e, w, -x);
    RailDefaults(q, k, x, e, w, true);
    RailDefaults(q, k, x, e, w, false);
    DefaultFires(q, k.ext, x, k.defaults[x], w, true);
    DefaultFires(q, k.ext, x, k.defaults[x], w, false);
    assert BodiesOf(k.defaults, x) == k.defaults[x] by { DefaultsKeyed(q, k, x); }
  }

  lemma DefaultsKeyed(q: Formula, k: Candidate, x: int)
    requires Fits(q, k) && x in q.deps
    ensures x in k.defaults
  {}

  lemma UnderAgrees(values: map<int, bool>, w: Valuation, cs: seq<Clause>)
    requires AgreesWith(w, values)
    ensures SomeFires(Under(values, w), cs) <==> SomeFires(w, cs)
  {
    hide Sat;
    forall i | 0 <= i < |cs| ensures Sat(Under(values, w), cs[i]) <==> Sat(w, cs[i]) {
      SameEverywhere(Under(values, w), w, cs[i]);
    }
  }

  lemma SameEverywhere(v: Valuation, w: Valuation, c: Clause)
    requires forall x :: v(x) == w(x)
    ensures Sat(v, c) <==> Sat(w, c)
  {
    forall i | 0 <= i < |c| ensures True(v, c[i]) == True(w, c[i]) {}
  }

  /** What a failure looks like: a valuation that follows the forcing clauses of all existentials in it. */
  ghost predicate Witnessed(q: Formula, k: Candidate, c: Conflict, w: Valuation, universals: seq<int>) {
    && AgreesWith(w, k.values) && c.complete == Assigned(w, universals)
    && AllTrue(w, c.existentials) && AllTrue(w, c.universals) && AllTrue(w, c.arbiters)
    && forall l, i :: l in k.forced && (l in c.existentials || -l in c.existentials) && 0 <= i < |k.forced[l]| ==>
         Sat(w, k.forced[l][i] + [l])
  }

  lemma BodyFires(w: Valuation, bodies: seq<Clause>, i: nat, l: int)
    requires i < |bodies| && (SomeFires(w, bodies) ==> True(w, l))
    ensures Sat(w, bodies[i] + [l])
  {
    SatConcat(w, bodies[i], [l]);
    UnitMeans(w, l);
  }

  /** A valuation of the validity query follows all forcing clauses. */
  lemma FollowsForced(q: Formula, k: Candidate, val: Valuation, l: int, i: nat)
    requires Fits(q, k) && Follows(q, k, val) && l in k.forced && i < |k.forced[l]|
    ensures Sat(val, k.forced[l][i] + [l])
  {
    var x := Abs(l);
    assert x in q.deps && x > 0 && TreeHolds(val, RulesFor(k, x), k.values);
    hide SomeFires, Sat, Fits;
    UnderAgrees(k.values, val, k.forced[l]);
    BodyFires(val, k.forced[l], i, l);
  }

  lemma AssignedTrue(val: Valuation, variables: seq<int>)
    requires forall v :: v in variables ==> v > 0
    ensures AllTrue(val, Assigned(val, variables))
  {
    var ls := Assigned(val, variables);
    forall i | 0 <= i < |ls| ensures True(val, ls[i]) { assert variables[i] in variables; }
  }

  lemma ValidityWitness(q: Formula, k: Candidate, val: Valuation, existentials: seq<int>, universals: seq<int>, bs: seq<int>)
    requires Fits(q, k) && Lists(q, existentials, universals) && Follows(q, k, val) && AllTrue(val, bs)
    ensures var us := Assigned(val, universals);
            Witnessed(q, k, Conflict(Assigned(val, existentials), us, bs, us), val, universals)
  {
    AssignedTrue(val, existentials);
    AssignedTrue(val, universals);
    hide Fits, Follows, Assigned, AllTrue, Sat;
    forall l, i | l in k.forced && 0 <= i < |k.forced[l]| ensures Sat(val, k.forced[l][i] + [l]) { FollowsForced(q, k, val, l, i); }
    assert AgreesWith(val, k.values) by { FollowsAgrees(q, k, val); }
  }

  lemma FollowsAgrees(q: Formula, k: Candidate, val: Valuation)
    requires Follows(q, k, val)
    ensures AgreesWith(val, k.values)
  {}

  /** x is torn, and no existential that it sees is. */
  ghost predicate LeastTorn(q: Formula, k: Candidate, e: Rails, x: int) {
    && x in q.deps && Torn(e, x) && x in k.ext
    && forall y :: y in q.deps && y in k.ext[x] ==> !Torn(e, y)
  }

  /** What the clash looks like to the clauses: what x sees, all universals, all arbiters. */
  lemma ClashConflict(q: Formula, k: Candidate, e: Rails, x: int, existentials: seq<int>, universals: seq<int>,
                      extraction: seq<Clause>, bs: seq<int>)
    requires Fits(q, k) && Lists(q, existentials, universals) && Clashes(q, k, e) && LeastTorn(q, k, e, x)
    requires Entailing(extraction, k.forced) && (forall w: Valuation :: AllTrue(w, bs) ==> AgreesWith(w, k.values))
    ensures Unsatisfiable(extraction, Conflict(Assigned(e.pos, Restricted(existentials, k.ext[x])), Assigned(e.rest, universals),
                                               bs, Assigned(e.rest, universals)))
  {
    var es := Restricted(existentials, k.ext[x]);
    hide Fits, Driven, Sat, Clashes, RulesFor, Entailing, SomeFires, Under;
    assert Driven(q, k, e, x) && x > 0 by { ClashParts(q, k, e, x); }
    forall w: Valuation | AllSat(w, extraction) && AllTrue(w, Assigned(e.pos, es)) && AllTrue(w, Assigned(e.rest, universals)) && AllTrue(w, bs)
      ensures false
    {
      ClashReads(q, k, e, x, existentials, universals, w);
      TornFires(q, k, e, x, w);
      UnderAgrees(k.values, w, BodiesOf(k.forced, x));
      UnderAgrees(k.values, w, BodiesOf(k.forced, -x));
      ForcedHolds(extraction, k.forced, x, w);
      ForcedHolds(extraction, k.forced, -x, w);
    }
  }

  /** Below a least torn existential the rails are the valuation of their positive signs. */
  lemma BelowReads(q: Formula, k: Candidate, e: Rails, x: int, y: int)
    requires Fits(q, k) && Clashes(q, k, e) && LeastTorn(q, k, e, x) && y in q.deps && y in k.ext[x]
    ensures Reads(q, k, y, e, Plain(q, e))
  {
    ClashParts(q, k, e, x);
    hide ForcedFit, DefaultsFit, ExtendedOk, Clashes, Driven;
    assert k.ext[y] * q.deps.Keys <= k.ext[x];
    forall v | v in Visible(q, k.ext, y) && v in q.deps ensures e.pos(v) == Plain(q, e)(v) && e.neg(v) != Plain(q, e)(v) {
      assert v in k.ext[y] * q.deps.Keys && !Torn(e, v);
    }
  }

  lemma ClashForced(q: Formula, k: Candidate, e: Rails, x: int, l: int, i: nat)
    requires Fits(q, k) && Clashes(q, k, e) && LeastTorn(q, k, e, x) && l in k.forced && i < |k.forced[l]|
    requires Abs(l) in k.ext[x] && Abs(l) in q.deps
    ensures Sat(Plain(q, e), k.forced[l][i] + [l])
  {
    var y, w := Abs(l), Plain(q, e);
    BelowReads(q, k, e, x, y);
    ClashParts(q, k, e, y);
    PlainAgrees(q, k, e);
    assert !Torn(e, y);
    hide SomeFires, RailFires, Sat, Fits, Clashes, Reads, LeastTorn;
    RailForced(q, k, y, e, w, l);
    UnderAgrees(k.values, w, k.forced[l]);
    BodyFires(w, k.forced[l], i, l);
  }

  lemma PlainAgrees(q: Formula, k: Candidate, e: Rails)
    requires Fits(q, k) && Clashes(q, k, e)
    ensures AgreesWith(Plain(q, e), k.values)
  {
    forall a | a in k.values ensures Plain(q, e)(a) == k.values[a] { assert a !in Prefix(q); }
  }

  lemma ClashWitness(q: Formula, k: Candidate, e: Rails, x: int, existentials: seq<int>, universals: seq<int>, bs: seq<int>)
    requires Fits(q, k) && Lists(q, existentials, universals) && Clashes(q, k, e) && LeastTorn(q, k, e, x)
    requires AllTrue(Plain(q, e), bs)
    ensures var us := Assigned(e.rest, universals);
            Witnessed(q, k, Conflict(Assigned(e.pos, Restricted(existentials, k.ext[x])), us, bs, us), Plain(q, e), universals)
  {
    hide Fits, Clashes, Restricted, Sat, Plain, Lists, Assigned, AllTrue, AgreesWith;
    var w, es := Plain(q, e), Restricted(existentials, k.ext[x]);
    ClashLists(q, k, e, x, existentials, universals);
    PlainAgrees(q, k, e);
    AssignedTrue(w, es);
    AssignedTrue(w, universals);
    forall l, i | l in k.forced && (l in Assigned(w, es) || -l in Assigned(w, es)) && 0 <= i < |k.forced[l]|
      ensures Sat(w, k.forced[l][i] + [l])
    {
      ClashBody(q, k, e, x, es, l, i);
    }
  }

  lemma ClashBody(q: Formula, k: Candidate, e: Rails, x: int, es: seq<int>, l: int, i: nat)
    requires Fits(q, k) && Clashes(q, k, e) && LeastTorn(q, k, e, x) && l in k.forced && i < |k.forced[l]|
    requires forall v :: v in es ==> v > 0 && v in q.deps && v in k.ext[x]
    requires l in Assigned(Plain(q, e), es) || -l in Assigned(Plain(q, e), es)
    ensures Sat(Plain(q, e), k.forced[l][i] + [l])
  {
    hide Fits, Clashes, Sat, Plain, Assigned;
    AssignedIn(Plain(q, e), es, l);
    AssignedIn(Plain(q, e), es, -l);
    ClashForced(q, k, e, x, l, i);
  }

  lemma ClashLists(q: Formula, k: Candidate, e: Rails, x: int, existentials: seq<int>, universals: seq<int>)
    requires Fits(q, k) && Lists(q, existentials, universals) && x in k.ext
    ensures var w, es := Plain(q, e), Restricted(existentials, k.ext[x]);
            && Assigned(e.pos, es) == Assigned(w, es) && Assigned(e.rest, universals) == Assigned(w, universals)
            && (forall v :: v in es ==> v > 0 && v in q.deps && v in k.ext[x]) && forall v :: v in universals ==> v > 0
  {
    var w, es := Plain(q, e), Restricted(existentials, k.ext[x]);
    forall v | v in es ensures v in existentials && Abs(v) in k.ext[x] && v > 0 { RestrictedIn(existentials, k.ext[x], v); }
    LearntApart(q, k);
    hide Fits, Restricted, Assigned;
    SameAssigned(e.pos, w, es);
    SameAssigned(e.rest, w, universals);
  }

  lemma LearntApart(q: Formula, k: Candidate)
    requires Fits(q, k)
    ensures q.universals !! q.deps.Keys
  {}

  lemma SameAssigned(v: Valuation, w: Valuation, variables: seq<int>)
    requires forall x :: x in variables ==> v(x) == w(x)
    ensures Assigned(v, variables) == Assigned(w, variables)
  {
    forall i | 0 <= i < |variables| ensures Assigned(v, variables)[i] == Assigned(w, variables)[i] { assert variables[i] in variables; }
  }

  /** A part of a failure has the same witness. */
  lemma WitnessWithin(q: Formula, k: Candidate, c: Conflict, part: Conflict, w: Valuation, universals: seq<int>)
    requires Witnessed(q, k, c, w, universals) && Within(part, c)
    ensures Witnessed(q, k, part, w, universals)
  {
    AllTrueIn(w, c.existentials);
    AllTrueIn(w, c.universals);
    AllTrueIn(w, c.arbiters);
    AllTrueIn(w, part.existentials);
    AllTrueIn(w, part.universals);
    AllTrueIn(w, part.arbiters);
  }

  lemma ClashParts(q: Formula, k: Candidate, e: Rails, x: int)
    requires Fits(q, k) && Clashes(q, k, e) && x in q.deps
    ensures Driven(q, k, e, x) && x > 0 && AgreesWith(e.rest, k.values)
    ensures forall y :: y in q.deps ==> e.pos(y) || e.neg(y)
  {
    forall y | y in q.deps ensures e.pos(y) || e.neg(y) { assert Driven(q, k, e, y); }
  }

  lemma ClashReads(q: Formula, k: Candidate, e: Rails, x: int, existentials: seq<int>, universals: seq<int>, w: Valuation)
    requires Fits(q, k) && Lists(q, existentials, universals) && Clashes(q, k, e) && LeastTorn(q, k, e, x)
    requires AllTrue(w, Assigned(e.pos, Restricted(existentials, k.ext[x]))) && AllTrue(w, Assigned(e.rest, universals))
    ensures Reads(q, k, x, e, w)
  {
    ClashParts(q, k, e, x);
    hide Fits, Clashes, Driven, AllTrue, Assigned;
    var es := Restricted(existentials, k.ext[x]);
    forall v ensures v in es <==> v in existentials && Abs(v) in k.ext[x] { RestrictedIn(existentials, k.ext[x], v); }
    forall v | v in Visible(q, k.ext, x) ensures (if v in q.deps then e.pos(v) == w(v) && e.neg(v) != w(v) else e.rest(v) == w(v)) {
      if v in q.deps {
        assert v > 0;
        AssignedSame(e.pos, es, w, v);
      } else {
        AssignedSame(e.rest, universals, w, v);
      }
    }
  }
}
