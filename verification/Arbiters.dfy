/** What the counterexample-guided solver learns from a conflict, and why every Skolem family agrees. */
module Arbiters {
  import opened Dqbf

  /** An arbiter fixes the value of an existential under one assignment of its dependencies. */
  datatype Arbiter = Arbiter(existential: int, annotation: seq<int>)

  datatype State = State(lastUsed: int, arbs: map<int, Arbiter>, proper: set<int>,
                         extraction: seq<Clause>, arbiterClauses: seq<Clause>)

  /** The values of the arbiters that a family induces. */
  ghost function ArbiterValues(s: Family, arbs: map<int, Arbiter>): Valuation {
    v => if v in arbs then s(arbs[v].existential, Positives(arbs[v].annotation)) else false
  }

  ghost function Full(q: Formula, s: Family, arbs: map<int, Arbiter>, u: set<int>): Valuation {
    Induced(q, s, ArbiterValues(s, arbs), u)
  }

  ghost function Prefix(q: Formula): set<int> { q.universals + q.deps.Keys }

  /** Arbiters are fresh variables with complete annotations. */
  ghost predicate Registered(q: Formula, st: State) {
    && WellFormed(q) && (forall v :: v in Prefix(q) ==> v <= st.lastUsed)
    && (forall a :: a in st.arbs ==>
          && 0 < a <= st.lastUsed && a !in Prefix(q) && st.arbs[a].existential in q.deps
          && Complete(st.arbs[a].annotation, q.deps[st.arbs[a].existential]))
  }

  ghost predicate Vocabulary(q: Formula, st: State) {
    AllOver(st.extraction, Prefix(q) + st.arbs.Keys) && AllOver(st.arbiterClauses, st.arbs.Keys)
  }

  /** The induced arbiter values satisfy every arbiter clause, and the family every extraction clause. */
  ghost predicate Agrees(q: Formula, s: Family, st: State) {
    && AllSat(ArbiterValues(s, st.arbs), st.arbiterClauses)
    && forall u :: u <= q.universals ==> AllSat(Full(q, s, st.arbs, u), st.extraction)
  }

  ghost predicate Sound(q: Formula, st: State) {
    Registered(q, st) && Vocabulary(q, st) && forall s :: Winning(q, s) ==> Agrees(q, s, st)
  }

  // ------------------------------------------------------- conflicts

  /** Literals that cannot hold together with the extraction clauses, and the assignment they come from. */
  datatype Conflict = Conflict(existentials: seq<int>, universals: seq<int>, arbiters: seq<int>, complete: seq<int>)

  ghost predicate Unsatisfiable(f: seq<Clause>, c: Conflict) {
    forall val: Valuation ::
      !(AllSat(val, f) && AllTrue(val, c.existentials) && AllTrue(val, c.universals) && AllTrue(val, c.arbiters))
  }

  /** The three parts speak about the right variables, without complementary literals. */
  ghost predicate Shaped(q: Formula, arbs: map<int, Arbiter>, c: Conflict) {
    && OverVars(c.existentials, q.deps.Keys) && OverVars(c.universals, q.universals) && OverVars(c.arbiters, arbs.Keys)
    && (forall l :: l in c.universals ==> -l !in c.universals)
    && (forall l :: l in c.existentials ==> -l !in c.existentials)
  }

  /** What an unsatisfiable core promises. */
  ghost predicate IsCore(q: Formula, st: State, c: Conflict) {
    && Shaped(q, st.arbs, c) && Unsatisfiable(st.extraction, c)
    && Complete(c.complete, q.universals) && forall l :: l in c.universals ==> l in c.complete
  }

  // ------------------------------------------------------- forcing clauses

  /** Extended dependencies: the original ones and existentials that depend on no more. */
  ghost predicate ExtendedOk(q: Formula, ext: map<int, set<int>>) {
    && ext.Keys == q.deps.Keys
    && forall x :: x in ext ==>
         && ext[x] * q.universals == q.deps[x]
         && forall y :: y in ext[x] && y in q.deps ==> q.deps[y] <= q.deps[x]
  }

  /** literal must hold when the conflict literals that its variable can see, and the arbiters, do. */
  ghost function ForcingClause(ext: map<int, set<int>>, literal: int, es: seq<int>, us: seq<int>, bs: seq<int>): Clause
    requires Abs(literal) in ext
  {
    Negated(Restricted(es + us, ext[Abs(literal)]) + bs) + [literal]
  }

  /** All existentials of the conflict but x are among the extended dependencies of x. */
  ghost predicate Sees(ext: map<int, set<int>>, es: seq<int>, x: int) {
    x in ext && forall l :: l in es && Abs(l) != x ==> Abs(l) in ext[x]
  }

  /** A forcing clause for literal l can be learned from the conflict. */
  ghost predicate Forceable(q: Formula, ext: map<int, set<int>>, st: State, c: Conflict, l: int) {
    && Sound(q, st) && ExtendedOk(q, ext) && Shaped(q, st.arbs, c) && Unsatisfiable(st.extraction, c)
    && l in c.existentials && Sees(ext, c.existentials, Abs(l))
  }

  /** u on the dependencies of x, the conflict's universals elsewhere. */
  ghost function Moved(q: Formula, us: seq<int>, x: int, u: set<int>): set<int>
    requires x in q.deps
  {
    (u * q.deps[x]) + (set l | l in us && l > 0 && l !in q.deps[x])
  }

  lemma MovedHolds(q: Formula, s: Family, aux: Valuation, us: seq<int>, x: int, u: set<int>)
    requires WellFormed(q) && x in q.deps && OverVars(us, q.universals) && forall l :: l in us ==> -l !in us
    requires forall l :: l in us && Abs(l) in q.deps[x] ==> True(Induced(q, s, aux, u), l)
    ensures Moved(q, us, x, u) <= q.universals && Moved(q, us, x, u) * q.deps[x] == u * q.deps[x]
    ensures AllTrue(Induced(q, s, aux, Moved(q, us, x, u)), us)
  {
    var w := Moved(q, us, x, u);
    forall l | l in us ensures Abs(l) in q.universals && l != 0 {
      var i :| 0 <= i < |us| && us[i] == l;
    }
    forall i | 0 <= i < |us| ensures True(Induced(q, s, aux, w), us[i]) {
      var l := us[i];
      assert l in us;
      if Abs(l) in q.deps[x] {
        assert True(Induced(q, s, aux, u), l);
      } else if l < 0 {
        assert -l !in us;
      }
    }
  }

  /** An existential that sees no more than x has the same value after the move. */
  lemma MovedSame(q: Formula, s: Family, aux: Valuation, x: int, u: set<int>, w: set<int>, l: int)
    requires WellFormed(q) && Respects(q, s) && x in q.deps && w * q.deps[x] == u * q.deps[x]
    requires Abs(l) in q.deps && q.deps[Abs(l)] <= q.deps[x]
    ensures True(Induced(q, s, aux, u), l) <==> True(Induced(q, s, aux, w), l)
  {
    var y := Abs(l);
    assert u * q.deps[y] == (u * q.deps[x]) * q.deps[y] == (w * q.deps[x]) * q.deps[y] == w * q.deps[y];
    assert s(y, u) == s(y, w);
  }

  /** The forcing clause holds under every family, although universals that its variable cannot see are dropped. */
  lemma ForcingClauseHolds(q: Formula, ext: map<int, set<int>>, st: State, c: Conflict, l: int, s: Family, u: set<int>)
    requires Forceable(q, ext, st, c, l) && Winning(q, s) && u <= q.universals
    ensures Abs(l) in ext && Sat(Full(q, s, st.arbs, u), ForcingClause(ext, -l, c.existentials, c.universals, c.arbiters))
  {
    var x, val := Abs(l), Full(q, s, st.arbs, u);
    var kept := Restricted(c.existentials + c.universals, ext[x]);
    if !Sat(val, ForcingClause(ext, -l, c.existentials, c.universals, c.arbiters)) {
      KeptNonZero(q, st.arbs, c, ext[x]);
      NegatedFails(val, kept + c.arbiters, [-l]);
      assert !True(val, [-l][0]);
      FailureMoves(q, ext, st, c, l, s, u);
    }
  }

  lemma KeptNonZero(q: Formula, arbs: map<int, Arbiter>, c: Conflict, range: set<int>)
    requires Shaped(q, arbs, c)
    ensures 0 !in Restricted(c.existentials + c.universals, range) + c.arbiters
  {
    NonZero(c.existentials, q.deps.Keys);
    NonZero(c.universals, q.universals);
    NonZero(c.arbiters, arbs.Keys);
    RestrictedIn(c.existentials + c.universals, range, 0);
  }

  /** If the kept literals hold at u, all conflict literals hold at a moved assignment. */
  lemma FailureMoves(q: Formula, ext: map<int, set<int>>, st: State, c: Conflict, l: int, s: Family, u: set<int>)
    requires Sound(q, st) && ExtendedOk(q, ext) && Shaped(q, st.arbs, c) && l in c.existentials
    requires Sees(ext, c.existentials, Abs(l)) && Winning(q, s) && u <= q.universals && Abs(l) in ext
    requires AllTrue(Full(q, s, st.arbs, u), Restricted(c.existentials + c.universals, ext[Abs(l)]) + c.arbiters)
    requires True(Full(q, s, st.arbs, u), l)
    ensures !Unsatisfiable(st.extraction, c)
  {
    var x, aux, val := Abs(l), ArbiterValues(s, st.arbs), Full(q, s, st.arbs, u);
    var kept := Restricted(c.existentials + c.universals, ext[x]);
    AllTrueIn(val, kept + c.arbiters);
    forall m | m in c.universals && Abs(m) in q.deps[x] ensures True(val, m) {
      RestrictedIn(c.existentials + c.universals, ext[x], m);
      assert m in kept + c.arbiters;
    }
    var w := Moved(q, c.universals, x, u);
    MovedHolds(q, s, aux, c.universals, x, u);
    var val2 := Full(q, s, st.arbs, w);
    forall i | 0 <= i < |c.existentials| ensures True(val2, c.existentials[i]) {
      var m := c.existentials[i];
      assert Abs(m) in q.deps.Keys;
      if Abs(m) != x {
        RestrictedIn(c.existentials + c.universals, ext[x], m);
        assert m in kept + c.arbiters && True(val, m);
      } else {
        assert m in c.existentials && m == l;
      }
      MovedSame(q, s, aux, x, u, w, m);
    }
    ArbitersFixed(q, st, s, u, w, c.arbiters);
    assert AllSat(val2, st.extraction) && AllTrue(val2, c.existentials) && AllTrue(val2, c.universals);
  }

  /** Arbiter literals do not depend on the universals. */
  lemma ArbitersFixed(q: Formula, st: State, s: Family, u: set<int>, w: set<int>, bs: seq<int>)
    requires Registered(q, st) && OverVars(bs, st.arbs.Keys)
    ensures AllTrue(Full(q, s, st.arbs, u), bs) <==> AllTrue(Full(q, s, st.arbs, w), bs)
    ensures AllTrue(Full(q, s, st.arbs, u), bs) <==> AllTrue(ArbiterValues(s, st.arbs), bs)
  {
    forall i | 0 <= i < |bs|
      ensures True(Full(q, s, st.arbs, u), bs[i]) == True(Full(q, s, st.arbs, w), bs[i])
      ensures True(Full(q, s, st.arbs, u), bs[i]) == True(ArbiterValues(s, st.arbs), bs[i])
    {
      assert Abs(bs[i]) in st.arbs.Keys;
    }
  }

  // ------------------------------------------------------- arbiter clauses

  /** One literal for each existential of the conflict: the value that its arbiter must not take. */
  ghost predicate Blames(q: Formula, arbs: map<int, Arbiter>, es: seq<int>, complete: seq<int>, bs: seq<int>) {
    && |bs| == |es|
    && forall i :: 0 <= i < |bs| ==>
         && Abs(bs[i]) in arbs && (bs[i] > 0 <==> es[i] > 0) && bs[i] != 0
         && Abs(es[i]) in q.deps && arbs[Abs(bs[i])].existential == Abs(es[i])
         && Positives(arbs[Abs(bs[i])].annotation) == Positives(complete) * q.deps[Abs(es[i])]
  }

  /** The clause over the conflict's arbiters and the arbiters of its existentials, no others. */
  ghost predicate ArbiterClause(q: Formula, arbs: map<int, Arbiter>, c: Conflict, clause: Clause) {
    exists bs :: Blames(q, arbs, c.existentials, c.complete, bs) && clause == Negated(c.arbiters) + Negated(bs)
  }

  /** The arbiter clause holds for the values that a family induces. */
  lemma ArbiterClauseHolds(q: Formula, st: State, c: Conflict, bs: seq<int>, s: Family)
    requires Sound(q, st) && IsCore(q, st, c) && Blames(q, st.arbs, c.existentials, c.complete, bs) && Winning(q, s)
    ensures Sat(ArbiterValues(s, st.arbs), Negated(c.arbiters) + Negated(bs))
  {
    var a := ArbiterValues(s, st.arbs);
    var u := Positives(c.complete);
    var val := Full(q, s, st.arbs, u);
    NonZero(c.arbiters, st.arbs.Keys);
    PositivesIn(q, c.complete);
    ExtractionHolds(q, st, s, u);
    CompleteHolds(q, s, a, c.complete, u, q.universals);
    SubsetTrue(val, c.universals, c.complete);
    ArbitersFixed(q, st, s, u, u, c.arbiters);
    BlamedValues(q, st, c, bs, s);
    assert Negated(bs) + [] == Negated(bs);
    if !Sat(a, Negated(c.arbiters) + Negated(bs)) {
      NegatedFails(a, c.arbiters, Negated(bs));
      NegatedFails(a, bs, []);
    }
  }

  lemma ExtractionHolds(q: Formula, st: State, s: Family, u: set<int>)
    requires Sound(q, st) && Winning(q, s) && u <= q.universals
    ensures AllSat(Full(q, s, st.arbs, u), st.extraction)
  {
    assert Agrees(q, s, st);
  }

  lemma NonZero(ls: seq<int>, vars: set<int>)
    requires OverVars(ls, vars)
    ensures 0 !in ls
  {}

  lemma PositivesIn(q: Formula, ls: seq<int>)
    requires Complete(ls, q.universals)
    ensures Positives(ls) <= q.universals && Positives(ls) * q.universals == Positives(ls)
  {}

  lemma SubsetTrue(val: Valuation, ls: seq<int>, all: seq<int>)
    requires AllTrue(val, all) && forall l :: l in ls ==> l in all
    ensures AllTrue(val, ls)
  {
    AllTrueIn(val, all);
    AllTrueIn(val, ls);
  }

  /** At the conflict's assignment each existential has the value of its arbiter. */
  lemma BlamedValues(q: Formula, st: State, c: Conflict, bs: seq<int>, s: Family)
    requires Registered(q, st) && Blames(q, st.arbs, c.existentials, c.complete, bs) && Respects(q, s)
    ensures 0 !in bs
    ensures AllTrue(ArbiterValues(s, st.arbs), bs) ==> AllTrue(Full(q, s, st.arbs, Positives(c.complete)), c.existentials)
  {
    forall i | 0 <= i < |bs|
      ensures True(ArbiterValues(s, st.arbs), bs[i]) == True(Full(q, s, st.arbs, Positives(c.complete)), c.existentials[i])
    {
      BlamedValue(q, st, c, bs, s, i);
    }
  }

  lemma BlamedValue(q: Formula, st: State, c: Conflict, bs: seq<int>, s: Family, i: nat)
    requires Registered(q, st) && Blames(q, st.arbs, c.existentials, c.complete, bs) && Respects(q, s) && i < |bs|
    ensures True(ArbiterValues(s, st.arbs), bs[i]) == True(Full(q, s, st.arbs, Positives(c.complete)), c.existentials[i])
  {
    var e, a, u := Abs(c.existentials[i]), Abs(bs[i]), Positives(c.complete);
    var pos := Positives(st.arbs[a].annotation);
    assert u * q.deps[e] == pos * q.deps[e];
    assert s(e, u) == s(e, pos);
  }

  // ------------------------------------------------------- linking clauses

  /** Under its annotation the arbiter equals its existential. */
  ghost function LinkClauses(a: int, b: Arbiter): seq<Clause> {
    [Negated(b.annotation) + [-a, b.existential], Negated(b.annotation) + [a, -b.existential]]
  }

  lemma LinkHolds(q: Formula, st: State, a: int, s: Family, u: set<int>)
    requires Registered(q, st) && a in st.arbs && Winning(q, s) && u <= q.universals
    ensures AllSat(Full(q, s, st.arbs, u), LinkClauses(a, st.arbs[a]))
  {
    var b, val := st.arbs[a], Full(q, s, st.arbs, u);
    var e := b.existential;
    if u * q.deps[e] == Positives(b.annotation) {
      LinkedValues(q, st, a, s, u);
      hide Full, Registered, Complete, Positives, Sat, AllTrue, Winning;
      PairHolds(val, a, e);
      SatSuffix(val, Negated(b.annotation), [-a, e]);
      SatSuffix(val, Negated(b.annotation), [a, -e]);
    } else {
      LinkInactive(q, st, a, s, u);
      hide Full, Registered, Complete, Positives, Sat, Winning;
      SatPrefix(val, Negated(b.annotation), [-a, e]);
      SatPrefix(val, Negated(b.annotation), [a, -e]);
    }
  }

  lemma LinkInactive(q: Formula, st: State, a: int, s: Family, u: set<int>)
    requires Registered(q, st) && a in st.arbs && Winning(q, s) && u <= q.universals
    requires u * q.deps[st.arbs[a].existential] != Positives(st.arbs[a].annotation)
    ensures Sat(Full(q, s, st.arbs, u), Negated(st.arbs[a].annotation))
  {
    var b := st.arbs[a];
    CompleteHolds(q, s, ArbiterValues(s, st.arbs), b.annotation, u, q.deps[b.existential]);
    hide Winning, Positives, Sat;
    SomeFails(Full(q, s, st.arbs, u), b.annotation, q.deps[b.existential]);
  }

  lemma SomeFails(val: Valuation, ls: seq<int>, range: set<int>)
    requires Complete(ls, range) && !AllTrue(val, ls)
    ensures Sat(val, Negated(ls))
  {
    var i :| 0 <= i < |ls| && !True(val, ls[i]);
    assert ls[i] in ls;
    assert True(val, Negated(ls)[i]);
  }

  lemma PairHolds(val: Valuation, a: int, e: int)
    requires val(a) == val(e) && a > 0 && e > 0
    ensures Sat(val, [-a, e]) && Sat(val, [a, -e])
  {
    var c, d := [-a, e], [a, -e];
    assert c[0] == -a && c[1] == e && d[0] == a && d[1] == -e;
  }

  lemma SatPrefix(val: Valuation, c: Clause, d: Clause)
    requires Sat(val, c)
    ensures Sat(val, c + d)
  {
    var i :| 0 <= i < |c| && True(val, c[i]);
    assert (c + d)[i] == c[i];
  }

  lemma SatSuffix(val: Valuation, c: Clause, d: Clause)
    requires Sat(val, d)
    ensures Sat(val, c + d)
  {
    var i :| 0 <= i < |d| && True(val, d[i]);
    assert (c + d)[|c| + i] == d[i];
  }

  lemma LinkedValues(q: Formula, st: State, a: int, s: Family, u: set<int>)
    requires Registered(q, st) && a in st.arbs && Respects(q, s)
    requires u * q.deps[st.arbs[a].existential] == Positives(st.arbs[a].annotation)
    ensures Full(q, s, st.arbs, u)(a) == Full(q, s, st.arbs, u)(st.arbs[a].existential)
  {
    var e, pos := st.arbs[a].existential, Positives(st.arbs[a].annotation);
    assert u * q.deps[e] == pos * q.deps[e];
    assert s(e, u) == s(e, pos);
  }

  // ------------------------------------------------------- growth

  /** Adding clauses that every family agrees with keeps the state sound. */
  lemma AddExtraction(q: Formula, st: State, f: seq<Clause>)
    requires Sound(q, st) && AllOver(f, Prefix(q) + st.arbs.Keys)
    requires forall s, u :: Winning(q, s) && u <= q.universals ==> AllSat(Full(q, s, st.arbs, u), f)
    ensures Sound(q, st.(extraction := st.extraction + f))
  {
    hide OverVars, Winning, Registered, AllSat;
    var st2 := st.(extraction := st.extraction + f);
    SameRegistered(q, st, st2);
    forall s | Winning(q, s) ensures Agrees(q, s, st2) {
      assert Agrees(q, s, st);
      forall u: set<int> | u <= q.universals ensures AllSat(Full(q, s, st2.arbs, u), st2.extraction) {
        AllSatConcat(Full(q, s, st.arbs, u), st.extraction, f);
      }
    }
  }

  lemma SameRegistered(q: Formula, st: State, st2: State)
    requires Registered(q, st) && st2.arbs == st.arbs && st2.lastUsed >= st.lastUsed
    ensures Registered(q, st2)
  {}

  lemma AddArbiterClause(q: Formula, st: State, c: Clause)
    requires Sound(q, st) && OverVars(c, st.arbs.Keys)
    requires forall s :: Winning(q, s) ==> Sat(ArbiterValues(s, st.arbs), c)
    ensures Sound(q, st.(arbiterClauses := st.arbiterClauses + [c]))
  {
    hide OverVars, Winning, Registered, Sat;
    var st2 := st.(arbiterClauses := st.arbiterClauses + [c]);
    SameRegistered(q, st, st2);
    forall s | Winning(q, s) ensures Agrees(q, s, st2) {
      assert Agrees(q, s, st);
    }
  }

  /** A new arbiter changes no value that an old clause speaks about. */
  lemma AddArbiter(q: Formula, st: State, b: Arbiter)
    requires Sound(q, st) && b.existential in q.deps && Complete(b.annotation, q.deps[b.existential]) && st.lastUsed >= 0
    ensures st.lastUsed + 1 !in st.arbs
    ensures Sound(q, st.(lastUsed := st.lastUsed + 1, arbs := st.arbs[st.lastUsed + 1 := b]))
  {
    var a := st.lastUsed + 1;
    var st2 := st.(lastUsed := a, arbs := st.arbs[a := b]);
    assert a !in Prefix(q) && a !in st.arbs;
    GrowVocabulary(q, st, st2);
    forall s | Winning(q, s) ensures Agrees(q, s, st2) {
      assert Agrees(q, s, st);
      AgreesGrows(q, s, st, st2, a);
    }
  }

  lemma GrowVocabulary(q: Formula, st: State, st2: State)
    requires Vocabulary(q, st) && st2.extraction == st.extraction && st2.arbiterClauses == st.arbiterClauses
    requires st.arbs.Keys <= st2.arbs.Keys
    ensures Vocabulary(q, st2)
  {}

  lemma AgreesGrows(q: Formula, s: Family, st: State, st2: State, a: int)
    requires Agrees(q, s, st) && Vocabulary(q, st) && a !in st.arbs && a !in Prefix(q)
    requires st2.extraction == st.extraction && st2.arbiterClauses == st.arbiterClauses
    requires st2.arbs.Keys == st.arbs.Keys + {a} && forall x :: x in st.arbs ==> st2.arbs[x] == st.arbs[x]
    ensures Agrees(q, s, st2)
  {
    forall i | 0 <= i < |st.arbiterClauses| ensures Sat(ArbiterValues(s, st2.arbs), st.arbiterClauses[i]) {
      SatAgrees(ArbiterValues(s, st.arbs), ArbiterValues(s, st2.arbs), st.arbiterClauses[i], st.arbs.Keys);
    }
    forall u: set<int>, i | u <= q.universals && 0 <= i < |st.extraction|
      ensures Sat(Full(q, s, st2.arbs, u), st.extraction[i])
    {
      SatAgrees(Full(q, s, st.arbs, u), Full(q, s, st2.arbs, u), st.extraction[i], Prefix(q) + st.arbs.Keys);
    }
  }

  // ------------------------------------------------------- the answer

  /** No valuation satisfies the arbiter clauses. */
  ghost predicate Refuted(f: seq<Clause>) {
    forall val: Valuation :: !AllSat(val, f)
  }

  /** When the arbiter clauses are unsatisfiable, no Skolem family is a model. */
  lemma RefutedIsFalse(q: Formula, st: State)
    requires Sound(q, st) && Refuted(st.arbiterClauses)
    ensures !IsTrue(q)
  {
    forall s: Family ensures !Winning(q, s) {
      assert Winning(q, s) ==> Agrees(q, s, st);
    }
  }

  ghost function StartState(q: Formula, lastUsed: int): State {
    State(lastUsed, map[], {}, q.matrix, [])
  }

  lemma StartSound(q: Formula, lastUsed: int)
    requires WellFormed(q) && forall v :: v in Prefix(q) ==> v <= lastUsed
    ensures Sound(q, StartState(q, lastUsed))
  {
    var st := StartState(q, lastUsed);
    assert Prefix(q) + st.arbs.Keys == Prefix(q);
  }

  // ------------------------------------------------------- steps of the solver

  /** A later state knows at least as much. */
  ghost predicate Later(st: State, st2: State) {
    && st.extraction <= st2.extraction && st.arbiterClauses <= st2.arbiterClauses && st.lastUsed <= st2.lastUsed
    && st.arbs.Keys <= st2.arbs.Keys && forall a :: a in st.arbs ==> st2.arbs[a] == st.arbs[a]
  }

  lemma LaterSelf(st: State)
    ensures Later(st, st)
  {}

  lemma LaterChain(a: State, b: State, c: State)
    requires Later(a, b) && Later(b, c)
    ensures Later(a, c)
  {}

  lemma LaterExtraction(st: State, f: seq<Clause>)
    ensures Later(st, st.(extraction := st.extraction + f))
  {}

  lemma SoundWellFormed(q: Formula, st: State)
    requires Sound(q, st)
    ensures WellFormed(q)
  {}

  lemma ArbiterPositive(q: Formula, st: State, a: int)
    requires Sound(q, st) && a in st.arbs
    ensures a > 0
  {}

  lemma LaterClause(st: State, c: Clause)
    ensures Later(st, st.(arbiterClauses := st.arbiterClauses + [c]))
  {}

  lemma LaterPrefix(f: seq<Clause>, st: State, st2: State)
    requires f <= st.extraction && Later(st, st2)
    ensures f <= st2.extraction
  {}

  lemma CoreParts(q: Formula, st: State, c: Conflict)
    requires IsCore(q, st, c)
    ensures Shaped(q, st.arbs, c) && Unsatisfiable(st.extraction, c) && Complete(c.complete, q.universals)
    ensures forall l :: l in c.existentials ==> l != 0 && Abs(l) in q.deps
  {}

  lemma ExtendedKeys(q: Formula, ext: map<int, set<int>>)
    requires ExtendedOk(q, ext)
    ensures ext.Keys == q.deps.Keys
  {}

  lemma SoundRegistered(q: Formula, st: State)
    requires Sound(q, st)
    ensures Registered(q, st) && AllOver(q.matrix, Prefix(q))
  {}

  lemma NothingBlamed(q: Formula, arbs: map<int, Arbiter>, c: Conflict)
    ensures Blames(q, arbs, c.existentials[..0], c.complete, [])
  {}

  lemma BlamesNext(q: Formula, arbs: map<int, Arbiter>, es: seq<int>, i: nat, complete: seq<int>, bs: seq<int>, b: int)
    requires i < |es| && Blames(q, arbs, es[..i], complete, bs) && Blames(q, arbs, [es[i]], complete, [b])
    ensures Blames(q, arbs, es[..i + 1], complete, bs + [b])
  {
    assert [es[i]][0] == es[i] && [b][0] == b;
  }

  lemma NegatedSees(ext: map<int, set<int>>, es: seq<int>, l: int)
    requires l in es && Sees(ext, es, Abs(l))
    ensures -l in Negated(es) && Sees(ext, Negated(es), Abs(-l))
  {
    var i :| 0 <= i < |es| && es[i] == l;
    assert Negated(es)[i] == -l;
    forall m | m in Negated(es) ensures -m in es {
      var k :| 0 <= k < |es| && Negated(es)[k] == m;
      assert es[k] == -m;
    }
  }

  lemma CoreStays(q: Formula, st: State, st2: State, c: Conflict)
    requires IsCore(q, st, c) && Later(st, st2)
    ensures IsCore(q, st2, c)
  {
    forall val: Valuation | AllSat(val, st2.extraction) ensures AllSat(val, st.extraction) {
      forall i | 0 <= i < |st.extraction| ensures Sat(val, st.extraction[i]) {
        assert st.extraction[i] == st2.extraction[i];
      }
    }
  }

  lemma BlamesStays(q: Formula, st: State, st2: State, es: seq<int>, complete: seq<int>, bs: seq<int>)
    requires Blames(q, st.arbs, es, complete, bs) && Later(st, st2)
    ensures Blames(q, st2.arbs, es, complete, bs)
  {}

  /** The forcing clause is a consequence: the conflict is one, or the clause is a tautology. */
  ghost predicate Learnable(q: Formula, ext: map<int, set<int>>, st: State, c: Conflict, l: int) {
    && l in c.existentials && Abs(l) in ext
    && (|| (Shaped(q, st.arbs, c) && Unsatisfiable(st.extraction, c) && Sees(ext, c.existentials, Abs(l)))
        || (var f := ForcingClause(ext, -l, c.existentials, c.universals, c.arbiters);
            c.arbiters == [] && OverVars(f, Prefix(q) + st.arbs.Keys) && !NoComplement(f)))
  }

  lemma LearnLearnable(q: Formula, ext: map<int, set<int>>, st: State, c: Conflict, l: int)
    requires Sound(q, st) && ExtendedOk(q, ext) && Learnable(q, ext, st, c, l)
    ensures Abs(l) in ext
    ensures Sound(q, st.(extraction := st.extraction + [ForcingClause(ext, -l, c.existentials, c.universals, c.arbiters)]))
  {
    hide Sound, ForcingClause, Sees, ExtendedOk, NoComplement;
    if Shaped(q, st.arbs, c) && Unsatisfiable(st.extraction, c) && Sees(ext, c.existentials, Abs(l)) {
      LearnForcing(q, ext, st, c, l);
    } else {
      var f := ForcingClause(ext, -l, c.existentials, c.universals, c.arbiters);
      NonZero(f, Prefix(q) + st.arbs.Keys);
      forall s: Family, u: set<int> | Winning(q, s) && u <= q.universals ensures AllSat(Full(q, s, st.arbs, u), [f]) {
        ComplementHolds(Full(q, s, st.arbs, u), f);
      }
      AddExtraction(q, st, [f]);
    }
  }

  /** What the solver knows after learning a forcing clause. */
  lemma LearnForcing(q: Formula, ext: map<int, set<int>>, st: State, c: Conflict, l: int)
    requires Sound(q, st) && ExtendedOk(q, ext) && Shaped(q, st.arbs, c) && Unsatisfiable(st.extraction, c)
    requires l in c.existentials && Sees(ext, c.existentials, Abs(l))
    ensures Abs(l) in ext
    ensures Sound(q, st.(extraction := st.extraction + [ForcingClause(ext, -l, c.existentials, c.universals, c.arbiters)]))
  {
    var f := ForcingClause(ext, -l, c.existentials, c.universals, c.arbiters);
    ForcingVocabulary(q, ext, st.arbs, c, l);
    forall s: Family, u: set<int> | Winning(q, s) && u <= q.universals ensures AllSat(Full(q, s, st.arbs, u), [f]) {
      ForcingClauseHolds(q, ext, st, c, l, s, u);
    }
    AddExtraction(q, st, [f]);
  }

  lemma ForcingVocabulary(q: Formula, ext: map<int, set<int>>, arbs: map<int, Arbiter>, c: Conflict, l: int)
    requires Shaped(q, arbs, c) && l in c.existentials && Abs(l) in ext
    ensures OverVars(ForcingClause(ext, -l, c.existentials, c.universals, c.arbiters), Prefix(q) + arbs.Keys)
  {
    var es := c.existentials + c.universals;
    var ls := Restricted(es, ext[Abs(l)]);
    forall i | 0 <= i < |ls| ensures ls[i] != 0 && Abs(ls[i]) in Prefix(q) {
      assert ls[i] in ls;
      RestrictedIn(es, ext[Abs(l)], ls[i]);
      var k :| 0 <= k < |es| && es[k] == ls[i];
      assert k < |c.existentials| ==> Abs(c.existentials[k]) in q.deps.Keys;
      assert k >= |c.existentials| ==> Abs(c.universals[k - |c.existentials|]) in q.universals;
    }
    var k :| 0 <= k < |c.existentials| && c.existentials[k] == l;
  }

  lemma LearnLinks(q: Formula, st: State, a: int)
    requires Sound(q, st) && a in st.arbs
    ensures Sound(q, st.(extraction := st.extraction + LinkClauses(a, st.arbs[a]), proper := st.proper + {a}))
  {
    var b := st.arbs[a];
    forall s: Family, u: set<int> | Winning(q, s) && u <= q.universals
      ensures AllSat(Full(q, s, st.arbs, u), LinkClauses(a, b))
    {
      LinkHolds(q, st, a, s, u);
    }
    forall i | 0 <= i < |b.annotation| ensures b.annotation[i] != 0 && Abs(b.annotation[i]) in Prefix(q) {
      assert b.annotation[i] in b.annotation;
    }
    assert AllOver(LinkClauses(a, b), Prefix(q) + st.arbs.Keys);
    AddExtraction(q, st, LinkClauses(a, b));
    SameSound(q, st.(extraction := st.extraction + LinkClauses(a, b)),
              st.(extraction := st.extraction + LinkClauses(a, b), proper := st.proper + {a}));
  }

  lemma SameSound(q: Formula, st: State, st2: State)
    requires Sound(q, st) && st2.(proper := st.proper) == st
    ensures Sound(q, st2)
  {
    forall s | Winning(q, s) ensures Agrees(q, s, st2) {
      assert Agrees(q, s, st);
    }
  }

  lemma LearnArbiterClause(q: Formula, st: State, c: Conflict, bs: seq<int>)
    requires Sound(q, st) && IsCore(q, st, c) && Blames(q, st.arbs, c.existentials, c.complete, bs)
    ensures Sound(q, st.(arbiterClauses := st.arbiterClauses + [Negated(c.arbiters) + Negated(bs)]))
  {
    forall s | Winning(q, s) ensures Sat(ArbiterValues(s, st.arbs), Negated(c.arbiters) + Negated(bs)) {
      ArbiterClauseHolds(q, st, c, bs, s);
    }
    AddArbiterClause(q, st, Negated(c.arbiters) + Negated(bs));
  }

  /** The restriction of a complete assignment is complete for the restricted variables. */
  lemma AnnotationComplete(q: Formula, complete: seq<int>, e: int)
    requires WellFormed(q) && e in q.deps && Complete(complete, q.universals)
    ensures Complete(Restricted(complete, q.deps[e]), q.deps[e])
    ensures Positives(Restricted(complete, q.deps[e])) == Positives(complete) * q.deps[e]
  {
    var r := Restricted(complete, q.deps[e]);
    forall l ensures l in r <==> l in complete && Abs(l) in q.deps[e] { RestrictedIn(complete, q.deps[e], l); }
  }

  // ------------------------------------------------------- clauses of the matrix as conflicts

  /** The negation of a clause cannot hold together with it. */
  ghost function ClauseConflict(q: Formula, c: Clause): Conflict {
    Conflict(Negated(Restricted(c, q.deps.Keys)), Negated(Restricted(c, q.universals)), [], [])
  }

  lemma ClauseIsConflict(q: Formula, st: State, c: Clause)
    requires Registered(q, st) && c in st.extraction && OverVars(c, Prefix(q)) && NoComplement(c)
    ensures Shaped(q, st.arbs, ClauseConflict(q, c)) && Unsatisfiable(st.extraction, ClauseConflict(q, c))
  {
    var k := ClauseConflict(q, c);
    NegatedPart(c, q.deps.Keys);
    NegatedPart(c, q.universals);
    forall val: Valuation | AllSat(val, st.extraction)
      ensures !(AllTrue(val, k.existentials) && AllTrue(val, k.universals))
    {
      ConflictWithClause(q, st, c, val);
    }
  }

  lemma NegatedIn(c: Clause, range: set<int>, l: int)
    ensures l in Negated(Restricted(c, range)) <==> -l in c && Abs(l) in range
  {
    var r := Restricted(c, range);
    var n := Negated(r);
    RestrictedIn(c, range, -l);
    if -l in r {
      var i :| 0 <= i < |r| && r[i] == -l;
      assert n[i] == l;
    }
    if l in n {
      var i :| 0 <= i < |n| && n[i] == l;
      assert r[i] == -l;
    }
  }

  lemma NegatedPart(c: Clause, range: set<int>)
    requires NoComplement(c) && 0 !in c
    ensures OverVars(Negated(Restricted(c, range)), range)
    ensures forall l :: l in Negated(Restricted(c, range)) ==> -l !in Negated(Restricted(c, range))
    ensures forall l :: l in Negated(Restricted(c, range)) <==> -l in c && Abs(l) in range
  {
    hide Restricted, Negated;
    var n := Negated(Restricted(c, range));
    forall l ensures l in n <==> -l in c && Abs(l) in range { NegatedIn(c, range, l); }
    forall i | 0 <= i < |n| ensures n[i] != 0 && Abs(n[i]) in range {
      assert n[i] in n;
    }
  }

  lemma ConflictWithClause(q: Formula, st: State, c: Clause, val: Valuation)
    requires Registered(q, st) && c in st.extraction && OverVars(c, Prefix(q)) && AllSat(val, st.extraction)
    requires NoComplement(c)
    ensures !(AllTrue(val, ClauseConflict(q, c).existentials) && AllTrue(val, ClauseConflict(q, c).universals))
  {
    var k := ClauseConflict(q, c);
    NegatedPart(c, q.deps.Keys);
    NegatedPart(c, q.universals);
    var j :| 0 <= j < |st.extraction| && st.extraction[j] == c;
    assert Sat(val, st.extraction[j]);
    var i :| 0 <= i < |c| && True(val, c[i]);
    assert Abs(c[i]) in Prefix(q) && -(-c[i]) in c;
    assert !True(val, -c[i]);
    AllTrueIn(val, k.existentials);
    AllTrueIn(val, k.universals);
    assert -c[i] in k.existentials || -c[i] in k.universals;
  }

  /** The forcing clause made from a clause of the matrix whose literal l is to be forced. */
  ghost function MatrixForcing(q: Formula, ext: map<int, set<int>>, c: Clause, l: int): Clause
    requires Abs(l) in ext
  {
    ForcingClause(ext, l, ClauseConflict(q, c).existentials, ClauseConflict(q, c).universals, [])
  }

  /** The clause holds under every family that is a model. */
  ghost predicate Entailed(q: Formula, f: Clause) {
    forall s: Family, aux: Valuation, u: set<int> :: Winning(q, s) && u <= q.universals ==> Sat(Induced(q, s, aux, u), f)
  }

  /** A complementary pair of the clause that the forced variable can see. */
  ghost predicate SeesPair(ext: map<int, set<int>>, c: Clause, x: int) {
    x in ext && exists m :: m in c && -m in c && Abs(m) in ext[x]
  }

  lemma MatrixForcingIn(q: Formula, ext: map<int, set<int>>, c: Clause, l: int, m: int)
    requires OverVars(c, Prefix(q)) && Abs(l) in ext
    ensures m in MatrixForcing(q, ext, c, l) <==> m == l || (m in c && Abs(m) in ext[Abs(l)])
  {
    hide Restricted, Negated;
    var es, us := ClauseConflict(q, c).existentials, ClauseConflict(q, c).universals;
    var r := Restricted(es + us, ext[Abs(l)]);
    var f := MatrixForcing(q, ext, c, l);
    assert r + [] == r;
    assert f == Negated(r) + [l] && f[|r|] == l;
    NegatedIn(c, q.deps.Keys, -m);
    NegatedIn(c, q.universals, -m);
    RestrictedIn(es + us, ext[Abs(l)], -m);
    NegatedHas(r, m);
    if m in c { ClauseVars(c, Prefix(q), m); }
  }

  lemma NegatedHas(r: seq<int>, m: int)
    ensures m in Negated(r) <==> -m in r
  {
    if -m in r {
      var i :| 0 <= i < |r| && r[i] == -m;
      assert Negated(r)[i] == m;
    }
  }

  lemma ClauseVars(c: Clause, vars: set<int>, m: int)
    requires OverVars(c, vars) && m in c
    ensures Abs(m) in vars
  {
    var i :| 0 <= i < |c| && c[i] == m;
  }

  /** A forcing clause keeps a complementary pair exactly when the forced variable sees one. */
  lemma PairSeen(q: Formula, ext: map<int, set<int>>, c: Clause, l: int)
    requires OverVars(c, Prefix(q)) && Abs(l) in ext && l in c && l != 0
    ensures !NoComplement(MatrixForcing(q, ext, c, l)) <==> SeesPair(ext, c, Abs(l))
  {
    hide MatrixForcing;
    forall m ensures m in MatrixForcing(q, ext, c, l) <==> m == l || (m in c && Abs(m) in ext[Abs(l)]) {
      MatrixForcingIn(q, ext, c, l, m);
    }
    if SeesPair(ext, c, Abs(l)) {
      var m :| m in c && -m in c && Abs(m) in ext[Abs(l)];
      assert m in MatrixForcing(q, ext, c, l) && -m in MatrixForcing(q, ext, c, l);
    }
    if !NoComplement(MatrixForcing(q, ext, c, l)) {
      var m :| m in MatrixForcing(q, ext, c, l) && -m in MatrixForcing(q, ext, c, l);
      assert m in c && -m in c && Abs(m) == Abs(-m) && Abs(m) in ext[Abs(l)];
    }
  }

  /** Made from the only clause of a matrix, a forcing clause holds under every model exactly when the
      clause has no complementary literals, or one whose variable the forced one can see. */
  lemma MatrixForcingExact(q: Formula, ext: map<int, set<int>>, c: Clause, l: int, maxVariable: int)
    requires forall v :: v in Prefix(q) ==> v <= maxVariable
    requires WellFormed(q) && ExtendedOk(q, ext) && q.matrix == [c]
    requires l in Restricted(c, q.deps.Keys) && Sees(ext, Restricted(c, q.deps.Keys), Abs(l))
    ensures Entailed(q, MatrixForcing(q, ext, c, l)) <==> NoComplement(c) || SeesPair(ext, c, Abs(l))
  {
    var f := MatrixForcing(q, ext, c, l);
    MatrixForcingVars(q, ext, c, l);
    RestrictedIn(c, q.deps.Keys, l);
    hide SeesPair, Sees, ExtendedOk, Restricted, MatrixForcing, NoComplement, OverVars, Winning, Sat, Induced;
    PairSeen(q, ext, c, l);
    if !NoComplement(f) {
      NonZero(f, Prefix(q));
      forall val: Valuation ensures Sat(val, f) { ComplementHolds(val, f); }
    } else if NoComplement(c) {
      forall s: Family, aux: Valuation, u: set<int> | Winning(q, s) && u <= q.universals
        ensures Sat(Induced(q, s, aux, u), f)
      {
        PlainClauseForces(q, ext, c, l, maxVariable, s, aux, u);
      }
    } else {
      ComplementMisleads(q, ext, c, l);
    }
  }

  /** The smallest failure: from x or not x or e, where e does not depend on x, e is forced, although not e also holds. */
  lemma MatrixForcingMisleads()
    ensures var q, ext := Formula({1}, map[2 := {}], [[1, -1, 2], [-2]]), map[2 := {}];
            && WellFormed(q) && ExtendedOk(q, ext) && Sees(ext, [2], 2)
            && MatrixForcing(q, ext, [1, -1, 2], 2) == [2]
            && IsTrue(q) && Refuted(q.matrix + [MatrixForcing(q, ext, [1, -1, 2], 2)])
  {
    var c, d := [1, -1, 2], [-2];
    var q, ext := Formula({1}, map[2 := {}], [c, d]), map[2 := {}];
    var s: Family := (e, u) => false;
    assert q.deps.Keys == {2} && ext.Keys == {2};
    assert OverVars(c, {1, 2}) && OverVars(d, {1, 2}) && q.matrix[0] == c && q.matrix[1] == d;
    assert WellFormed(q);
    SmallForcing(q, ext, c);
    forall u: set<int>, aux: Valuation | u <= q.universals ensures AllSat(Induced(q, s, aux, u), q.matrix) {
      assert c[0] == 1 && c[1] == -1 && d[0] == -2;
      assert True(Induced(q, s, aux, u), c[0]) || True(Induced(q, s, aux, u), c[1]);
      assert True(Induced(q, s, aux, u), d[0]);
    }
    assert Winning(q, s);
    var f := q.matrix + [[2]];
    assert f[1] == d && f[2] == [2];
    forall val: Valuation ensures !AllSat(val, f) {
      UnitMeans(val, -2);
      UnitMeans(val, 2);
      assert !(Sat(val, f[1]) && Sat(val, f[2]));
    }
  }

  lemma SmallForcing(q: Formula, ext: map<int, set<int>>, c: Clause)
    requires c == [1, -1, 2] && q.deps.Keys == {2} && q.universals == {1} && ext == map[2 := {}]
    ensures MatrixForcing(q, ext, c, 2) == [2]
  {
    RestrictedThree(1, -1, 2, {2});
    RestrictedThree(1, -1, 2, {1});
    hide Restricted;
    var es, us := Negated(Restricted(c, {2})), Negated(Restricted(c, {1}));
    assert es + us == [-2, -1, 1];
    RestrictedThree(-2, -1, 1, {});
    assert Negated([]) == [];
  }

  /** Whatever literal of the clause is forced, the forcing clause is a consequence. */
  ghost predicate ForcesSafely(q: Formula, ext: map<int, set<int>>, c: Clause) {
    NoComplement(c) || forall l :: l in Restricted(c, q.deps.Keys) && Sees(ext, Restricted(c, q.deps.Keys), Abs(l)) ==>
                         SeesPair(ext, c, Abs(l))
  }

  /** A clause of the matrix that forces safely gives a clause that can be learned. */
  lemma SafeIsLearnable(q: Formula, ext: map<int, set<int>>, st: State, c: Clause, l: int)
    requires Registered(q, st) && ExtendedOk(q, ext) && c in st.extraction && OverVars(c, Prefix(q)) && ForcesSafely(q, ext, c)
    requires l in Restricted(c, q.deps.Keys) && Sees(ext, Restricted(c, q.deps.Keys), Abs(l))
    ensures Learnable(q, ext, st, ClauseConflict(q, c), -l)
  {
    NonZero(c, Prefix(q));
    RestrictedIn(c, q.deps.Keys, l);
    hide Registered, Restricted, NoComplement, OverVars, ForcingClause, Sees, SeesPair, Shaped, Unsatisfiable, ExtendedOk;
    SeesKey(ext, Restricted(c, q.deps.Keys), Abs(l));
    NegatedSees(ext, Restricted(c, q.deps.Keys), l);
    if NoComplement(c) {
      ClauseIsConflict(q, st, c);
    } else {
      PairSeen(q, ext, c, l);
      SafeVocabulary(q, ext, st.arbs, c, l);
    }
  }

  lemma SeesKey(ext: map<int, set<int>>, es: seq<int>, x: int)
    requires Sees(ext, es, x)
    ensures x in ext
  {}

  lemma SafeVocabulary(q: Formula, ext: map<int, set<int>>, arbs: map<int, Arbiter>, c: Clause, l: int)
    requires OverVars(c, Prefix(q)) && Abs(l) in ext && l in c && l != 0
    ensures OverVars(MatrixForcing(q, ext, c, l), Prefix(q) + arbs.Keys)
  {
    var f := MatrixForcing(q, ext, c, l);
    NonZero(c, Prefix(q));
    hide MatrixForcing;
    forall i | 0 <= i < |f| ensures f[i] != 0 && Abs(f[i]) in Prefix(q) {
      assert f[i] in f;
      MatrixForcingIn(q, ext, c, l, f[i]);
      ClauseVars(c, Prefix(q), f[i]);
    }
  }

  lemma MatrixForcingVars(q: Formula, ext: map<int, set<int>>, c: Clause, l: int)
    requires WellFormed(q) && q.matrix == [c] && l in Restricted(c, q.deps.Keys) && Abs(l) in ext
    ensures OverVars(MatrixForcing(q, ext, c, l), Prefix(q)) && OverVars(c, Prefix(q)) && 0 !in c
  {
    assert OverVars(q.matrix[0], Prefix(q));
    NonZero(c, Prefix(q));
    var k := ClauseConflict(q, c);
    var es := k.existentials + k.universals;
    RestrictedIn(c, q.deps.Keys, l);
    NegatedVars(c, q.deps.Keys);
    NegatedVars(c, q.universals);
    var r := Restricted(es, ext[Abs(l)]) + [];
    forall i | 0 <= i < |r| ensures r[i] != 0 && Abs(r[i]) in Prefix(q) {
      assert r[i] in r;
      RestrictedIn(es, ext[Abs(l)], r[i]);
    }
  }

  lemma NegatedVars(c: Clause, range: set<int>)
    requires 0 !in c
    ensures forall l :: l in Negated(Restricted(c, range)) ==> l != 0 && Abs(l) in range
  {
    var r := Restricted(c, range);
    forall l | l in Negated(r) ensures l != 0 && Abs(l) in range {
      var i :| 0 <= i < |r| && Negated(r)[i] == l;
      assert r[i] in r;
      RestrictedIn(c, range, r[i]);
    }
  }

  lemma PlainClauseForces(q: Formula, ext: map<int, set<int>>, c: Clause, l: int, m: int,
                          s: Family, aux: Valuation, u: set<int>)
    requires WellFormed(q) && ExtendedOk(q, ext) && q.matrix == [c] && NoComplement(c)
    requires forall v :: v in Prefix(q) ==> v <= m
    requires l in Restricted(c, q.deps.Keys) && Sees(ext, Restricted(c, q.deps.Keys), Abs(l))
    requires Winning(q, s) && u <= q.universals
    ensures Abs(l) in ext && Sat(Induced(q, s, aux, u), MatrixForcing(q, ext, c, l))
  {
    hide Winning, Forceable, Induced, Sat, ForcingClause, OverVars;
    MatrixForcingVars(q, ext, c, l);
    PlainForceable(q, ext, c, l, m);
    ForcingClauseHolds(q, ext, StartState(q, m), ClauseConflict(q, c), -l, s, u);
    SameOnPrefix(q, s, map[], aux, u, MatrixForcing(q, ext, c, l));
  }

  lemma PlainForceable(q: Formula, ext: map<int, set<int>>, c: Clause, l: int, m: int)
    requires WellFormed(q) && ExtendedOk(q, ext) && q.matrix == [c] && NoComplement(c)
    requires forall v :: v in Prefix(q) ==> v <= m
    requires l in Restricted(c, q.deps.Keys) && Sees(ext, Restricted(c, q.deps.Keys), Abs(l))
    ensures Forceable(q, ext, StartState(q, m), ClauseConflict(q, c), -l)
  {
    hide Sound, Restricted, Negated, Shaped, Unsatisfiable, NoComplement;
    StartParts(q, m);
    MatrixForcingVars(q, ext, c, l);
    assert q.matrix[0] == c && c in StartState(q, m).extraction;
    ClauseIsConflict(q, StartState(q, m), c);
    NegatedSees(ext, Restricted(c, q.deps.Keys), l);
  }

  lemma StartParts(q: Formula, m: int)
    requires WellFormed(q) && forall v :: v in Prefix(q) ==> v <= m
    ensures var st := StartState(q, m); Sound(q, st) && Registered(q, st) && st.extraction == q.matrix
  {
    StartSound(q, m);
  }

  lemma SameOnPrefix(q: Formula, s: Family, arbs: map<int, Arbiter>, aux: Valuation, u: set<int>, c: Clause)
    requires OverVars(c, Prefix(q))
    ensures Sat(Full(q, s, arbs, u), c) <==> Sat(Induced(q, s, aux, u), c)
  {
    SatAgrees(Full(q, s, arbs, u), Induced(q, s, aux, u), c, Prefix(q));
  }

  lemma AgainstWins(q: Formula, c: Clause, f: Clause)
    requires WellFormed(q) && q.matrix == [c] && !NoComplement(c) && 0 !in c
    ensures Winning(q, Against(f))
  {
    hide NoComplement, Sat;
    forall w: set<int>, a: Valuation | w <= q.universals ensures AllSat(Induced(q, Against(f), a, w), q.matrix) {
      ComplementHolds(Induced(q, Against(f), a, w), c);
    }
  }

  /** A clause with complementary literals allows every family, but what is left of it need not hold. */
  lemma ComplementMisleads(q: Formula, ext: map<int, set<int>>, c: Clause, l: int)
    requires WellFormed(q) && q.matrix == [c] && l in Restricted(c, q.deps.Keys) && Abs(l) in ext
    requires !NoComplement(c) && NoComplement(MatrixForcing(q, ext, c, l))
    ensures !Entailed(q, MatrixForcing(q, ext, c, l))
  {
    hide MatrixForcing, Restricted, NoComplement, Winning, Sat, Against, Induced, OverVars;
    var f := MatrixForcing(q, ext, c, l);
    MatrixForcingVars(q, ext, c, l);
    AgainstWins(q, c, f);
    var aux: Valuation := v => false;
    AgainstFails(q, f, aux);
    var u := set v | v in q.universals && -v in f;
    assert u <= q.universals;
  }
}
