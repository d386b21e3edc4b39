/** Why the main loop ends: every conflict adds a forcing clause or uses up an assignment of the arbiters. */
module SolverProgress {
  import opened Basics
  import opened Sizes
  import opened Dqbf
  import opened Arbiters
  import opened SkolemRules
  import opened SkolemFamily
  import opened ValidityCheck

  // ------------------------------------------------------- forcing clauses

  ghost function LitsOf(c: Clause): set<int> { set l | l in c }

  /** Forcing clauses as pairs of the forced literal and the set of the others. */
  ghost function Learnt(forced: map<int, seq<Clause>>): set<(int, set<int>)> {
    set l, i | l in forced && 0 <= i < |forced[l]| :: (l, LitsOf(forced[l][i]))
  }

  lemma LearntNext(forced: map<int, seq<Clause>>, l: int, body: Clause)
    ensures Learnt(AddBody(forced, l, body)) == Learnt(forced) + {(l, LitsOf(body))}
  {
    var more := AddBody(forced, l, body);
    forall p | p in Learnt(more) ensures p in Learnt(forced) + {(l, LitsOf(body))} {
      var m, i :| m in more && 0 <= i < |more[m]| && p == (m, LitsOf(more[m][i]));
      if !(m == l && i == |more[m]| - 1) { assert m in forced && more[m][i] == forced[m][i]; }
    }
    forall p | p in Learnt(forced) + {(l, LitsOf(body))} ensures p in Learnt(more) {
      if p in Learnt(forced) {
        var m, i :| m in forced && 0 <= i < |forced[m]| && p == (m, LitsOf(forced[m][i]));
        assert m in more && more[m][i] == forced[m][i];
      } else {
        assert more[l][|more[l]| - 1] == body;
      }
    }
  }

  lemma SameLitsSat(w: Valuation, c: Clause, d: Clause)
    requires LitsOf(c) == LitsOf(d)
    ensures Sat(w, c) <==> Sat(w, d)
  {
    SatIn(w, c);
    SatIn(w, d);
    forall l ensures l in c <==> l in d { assert l in LitsOf(c) <==> l in LitsOf(d); }
  }

  /** The forcing clause fails at the witness of its conflict. */
  lemma ForcingFails(ext: map<int, set<int>>, c: Conflict, l: int, w: Valuation)
    requires Abs(l) in ext && l in c.existentials && 0 !in c.existentials + c.universals + c.arbiters
    requires AllTrue(w, c.existentials) && AllTrue(w, c.universals) && AllTrue(w, c.arbiters)
    ensures !Sat(w, Body(ForcingClause(ext, -l, c.existentials, c.universals, c.arbiters))) && !True(w, -l)
  {
    var es := c.existentials + c.universals;
    var kept := Restricted(es, ext[Abs(l)]);
    var b := Body(ForcingClause(ext, -l, c.existentials, c.universals, c.arbiters));
    assert b == Negated(kept + c.arbiters);
    AllTrueIn(w, c.existentials);
    AllTrueIn(w, c.universals);
    AllTrueIn(w, c.arbiters);
    forall i | 0 <= i < |b| ensures !True(w, b[i]) {
      var m := (kept + c.arbiters)[i];
      assert b[i] == -m;
      if i < |kept| { assert m in kept; RestrictedIn(es, ext[Abs(l)], m); } else { assert m in c.arbiters; }
      assert m in es + c.arbiters && True(w, m);
    }
    assert True(w, l);
  }

  /** What is learnt from a failure was not known: it would have excluded the failure. */
  lemma ForcingIsNew(q: Formula, k: Candidate, c: Conflict, l: int, w: Valuation, universals: seq<int>)
    requires Witnessed(q, k, c, w, universals) && Abs(l) in k.ext && l in c.existentials
    requires 0 !in c.existentials + c.universals + c.arbiters
    ensures (-l, LitsOf(Body(ForcingClause(k.ext, -l, c.existentials, c.universals, c.arbiters)))) !in Learnt(k.forced)
  {
    var b := Body(ForcingClause(k.ext, -l, c.existentials, c.universals, c.arbiters));
    ForcingFails(k.ext, c, l, w);
    if (-l, LitsOf(b)) in Learnt(k.forced) {
      var m, i :| m in k.forced && 0 <= i < |k.forced[m]| && (-l, LitsOf(b)) == (m, LitsOf(k.forced[m][i]));
      var d := k.forced[-l][i];
      assert Sat(w, d + [-l]);
      SatConcat(w, d, [-l]);
      UnitMeans(w, -l);
      SameLitsSat(w, b, d);
    }
  }

  // ------------------------------------------------------- arbiters

  /** The clauses that tie an arbiter to its existential are among the forcing clauses. */
  ghost predicate Linked(forced: map<int, seq<Clause>>, a: int, b: Arbiter) {
    && Negated(b.annotation) + [-a] in BodiesOf(forced, b.existential)
    && Negated(b.annotation) + [a] in BodiesOf(forced, -b.existential)
  }

  ghost predicate AllLinked(forced: map<int, seq<Clause>>, proper: set<int>, arbs: map<int, Arbiter>) {
    forall a :: a in proper ==> a in arbs && Linked(forced, a, arbs[a])
  }

  lemma BodyStays(forced: map<int, seq<Clause>>, l: int, body: Clause, m: int, c: Clause)
    requires c in BodiesOf(forced, m)
    ensures c in BodiesOf(AddBody(forced, l, body), m)
  {
    var before := BodiesOf(forced, m);
    var i :| 0 <= i < |before| && before[i] == c;
    assert BodiesOf(AddBody(forced, l, body), m)[i] == c;
  }

  lemma LinkedStays(forced: map<int, seq<Clause>>, l: int, body: Clause, proper: set<int>, arbs: map<int, Arbiter>)
    requires AllLinked(forced, proper, arbs)
    ensures AllLinked(AddBody(forced, l, body), proper, arbs)
  {
    hide AddBody, BodiesOf, Negated;
    forall a | a in proper ensures a in arbs && Linked(AddBody(forced, l, body), a, arbs[a]) {
      var b := arbs[a];
      BodyStays(forced, l, body, b.existential, Negated(b.annotation) + [-a]);
      BodyStays(forced, l, body, -b.existential, Negated(b.annotation) + [a]);
    }
  }

  lemma AnnotationFails(w: Valuation, annotation: seq<int>, a: int)
    requires AllTrue(w, annotation) && 0 !in annotation
    ensures !Sat(w, Negated(annotation))
  {
    var n := Negated(annotation);
    forall i | 0 <= i < |n| ensures !True(w, n[i]) {
      assert n[i] == -annotation[i] && True(w, annotation[i]) && annotation[i] in annotation;
    }
  }

  /** At the witness a linked arbiter has the value of its existential. */
  lemma LinkedValue(q: Formula, k: Candidate, c: Conflict, w: Valuation, universals: seq<int>, a: int, b: Arbiter, l: int)
    requires Witnessed(q, k, c, w, universals) && l in c.existentials && Abs(l) == b.existential > 0 && a > 0
    requires Linked(k.forced, a, b) && AllTrue(w, b.annotation) && 0 !in b.annotation
    ensures w(a) == (l > 0)
  {
    var e, n := b.existential, Negated(b.annotation);
    assert AllTrue(w, c.existentials);
    AllTrueIn(w, c.existentials);
    AnnotationFails(w, b.annotation, a);
    hide Negated, Witnessed, Sat, AllTrue, BodiesOf;
    ForcedAt(q, k, c, w, universals, e, n + [-a]);
    ForcedAt(q, k, c, w, universals, -e, n + [a]);
    SatConcat(w, n, [-a]);
    SatConcat(w, n, [a]);
    UnitMeans(w, -a);
    UnitMeans(w, a);
    assert True(w, l);
  }

  lemma ForcedAt(q: Formula, k: Candidate, c: Conflict, w: Valuation, universals: seq<int>, m: int, body: Clause)
    requires Witnessed(q, k, c, w, universals) && body in BodiesOf(k.forced, m)
    requires m in c.existentials || -m in c.existentials
    ensures Sat(w, body) || True(w, m)
  {
    var i :| 0 <= i < |BodiesOf(k.forced, m)| && BodiesOf(k.forced, m)[i] == body;
    assert Sat(w, k.forced[m][i] + [m]);
    SatConcat(w, body, [m]);
    UnitMeans(w, m);
  }

  /** The literals of a clause are all false under the assignment. */
  ghost predicate Falsified(c: Clause, bs: set<int>) {
    forall l :: l in c ==> -l in bs
  }

  ghost predicate SomeFalsified(cs: seq<Clause>, bs: set<int>) {
    exists i :: 0 <= i < |cs| && Falsified(cs[i], bs)
  }

  /** Every clause holds under the assignment. */
  ghost predicate Satisfied(cs: seq<Clause>, bs: set<int>) {
    forall i :: 0 <= i < |cs| ==> Meets(cs[i], bs)
  }

  ghost predicate Meets(c: Clause, bs: set<int>) {
    exists l :: l in c && l in bs
  }

  lemma NotBoth(cs: seq<Clause>, bs: seq<int>, range: set<int>)
    requires Complete(bs, range) && Satisfied(cs, LitsOf(bs))
    ensures !SomeFalsified(cs, LitsOf(bs))
  {
    forall i | 0 <= i < |cs| ensures !Falsified(cs[i], LitsOf(bs)) {
      assert Meets(cs[i], LitsOf(bs));
      var l :| l in cs[i] && l in LitsOf(bs);
      assert -l !in bs;
    }
  }

  lemma FalsifiedMore(cs: seq<Clause>, ds: seq<Clause>, bs: set<int>)
    requires SomeFalsified(cs, bs) && cs <= ds
    ensures SomeFalsified(ds, bs)
  {
    var i :| 0 <= i < |cs| && Falsified(cs[i], bs);
    assert ds[i] == cs[i];
  }

  lemma FalsifiedParts(a: seq<int>, b: seq<int>, bs: set<int>)
    requires (forall l :: l in a ==> l in bs) && forall l :: l in b ==> l in bs
    ensures Falsified(Negated(a) + Negated(b), bs)
  {
    var c := Negated(a) + Negated(b);
    forall l | l in c ensures -l in bs {
      var i :| 0 <= i < |c| && c[i] == l;
      if i < |a| { assert a[i] in a; } else { assert b[i - |a|] in b; }
    }
  }

  // ------------------------------------------------------- what has been tried

  /** Arbiters, tied arbiters, and values of arbiters at a conflict without forcing clause. */
  type Trial = ((set<int>, set<int>), set<int>)

  /** Arbiters, tied arbiters, forcing clauses, arbiter clauses, and the values of the arbiters. */
  datatype Standing = Standing(arbs: set<int>, proper: set<int>, learnt: set<(int, set<int>)>, clauses: seq<Clause>, values: set<int>)

  /** t knows at least as much; without new arbiters or ties the values are the same. */
  ghost predicate Advances(s: Standing, t: Standing) {
    && s.arbs <= t.arbs && s.proper <= t.proper && s.learnt <= t.learnt && s.clauses <= t.clauses
    && (SameArbiters(s, t) ==> s.values == t.values)
  }

  ghost predicate SameArbiters(s: Standing, t: Standing) {
    s.arbs == t.arbs && s.proper == t.proper
  }

  lemma AdvancesChain(a: Standing, b: Standing, c: Standing)
    requires Advances(a, b) && Advances(b, c)
    ensures Advances(a, c)
    ensures SameArbiters(a, c) ==> SameArbiters(a, b) && SameArbiters(b, c)
  {}

  ghost function Signed(vars: set<int>): set<int> { vars + set v | v in vars :: -v }

  /** While the arbiters are the same, their values now are not those of a trial: a clause excludes those. */
  ghost predicate Excluded(t: Trial, s: Standing) {
    && t.0.0 <= s.arbs && t.0.1 <= s.arbs && t.1 <= Signed(s.arbs) && t.0.1 <= s.proper
    && (t.0.0 == s.arbs && t.0.1 == s.proper ==> SomeFalsified(s.clauses, t.1) && t.1 != s.values)
  }

  ghost predicate AllExcluded(tried: set<Trial>, s: Standing) {
    forall t :: t in tried ==> Excluded(t, s)
  }

  lemma AssignmentSigned(bs: seq<int>, range: set<int>)
    requires Complete(bs, range)
    ensures LitsOf(bs) <= Signed(range)
  {
    forall l | l in LitsOf(bs) ensures l in Signed(range) {
      assert Abs(l) in range;
      if l < 0 { assert l == -Abs(l); }
    }
  }

  lemma SignedGrows(a: set<int>, b: set<int>)
    requires a <= b
    ensures Signed(a) <= Signed(b)
  {}

  /** Without new arbiters or ties the values are those before; otherwise nothing has been tried. */
  lemma ExcludedAdvance(tried: set<Trial>, s: Standing, s2: Standing)
    requires AllExcluded(tried, s) && Advances(s, s2)
    ensures AllExcluded(tried, s2)
  {
    SignedGrows(s.arbs, s2.arbs);
    hide Signed, SomeFalsified;
    forall t | t in tried ensures Excluded(t, s2) {
      assert Excluded(t, s);
      if t.0.0 == s2.arbs && t.0.1 == s2.proper { FalsifiedMore(s.clauses, s2.clauses, t.1); }
    }
  }

  /** New values satisfy every clause, so they have not been tried. */
  lemma ExcludedModel(tried: set<Trial>, s: Standing, found: seq<int>)
    requires AllExcluded(tried, s) && Complete(found, s.arbs) && Satisfied(s.clauses, LitsOf(found))
    ensures AllExcluded(tried, s.(values := LitsOf(found)))
  {
    NotBoth(s.clauses, found, s.arbs);
    hide Signed, SomeFalsified, Satisfied;
    forall t | t in tried ensures Excluded(t, s.(values := LitsOf(found))) { assert Excluded(t, s); }
  }

  ghost function TrialOf(s: Standing): Trial { ((s.arbs, s.proper), s.values) }

  /** A conflict is a new trial, which what is learnt from it excludes. */
  lemma TrialIsNew(tried: set<Trial>, s: Standing, s2: Standing)
    requires AllExcluded(tried, s) && Advances(s, s2) && s.proper <= s.arbs && s.values <= Signed(s.arbs)
    requires SameArbiters(s, s2) ==> SomeFalsified(s2.clauses, s.values)
    ensures TrialOf(s) !in tried
    ensures forall found: seq<int> :: Complete(found, s2.arbs) && Satisfied(s2.clauses, LitsOf(found)) ==>
              AllExcluded(tried + {TrialOf(s)}, s2.(values := LitsOf(found)))
  {
    forall t | t in tried ensures t != TrialOf(s) { assert Excluded(t, s); }
    ExcludedAdvance(tried, s, s2);
    SignedGrows(s.arbs, s2.arbs);
    forall found: seq<int> | Complete(found, s2.arbs) && Satisfied(s2.clauses, LitsOf(found))
      ensures AllExcluded(tried + {TrialOf(s)}, s2.(values := LitsOf(found)))
    {
      ExcludedModel(tried, s2, found);
      NotBoth(s2.clauses, found, s2.arbs);
      assert Excluded(TrialOf(s), s2.(values := LitsOf(found)));
    }
  }

  // ------------------------------------------------------- how many arbiters there can be

  /** The assignment of range in the order of the list of universals. */
  function Canonical(universals: seq<int>, range: set<int>, positives: set<int>): seq<int> {
    Restricted(Assigned(v => v in positives, universals), range)
  }

  lemma {:induction false} RestrictedAssigned(v: Valuation, w: Valuation, universals: seq<int>, range: set<int>)
    requires (forall u :: u in universals ==> u > 0) && forall u :: u in range ==> v(u) == w(u)
    ensures Restricted(Assigned(v, universals), range) == Restricted(Assigned(w, universals), range)
  {
    var a, b := Assigned(v, universals), Assigned(w, universals);
    if universals != [] {
      var n := |universals| - 1;
      assert a[..n] == Assigned(v, universals[..n]) && b[..n] == Assigned(w, universals[..n]);
      assert universals[n] in universals && forall u :: u in universals[..n] ==> u in universals;
      RestrictedAssigned(v, w, universals[..n], range);
    }
  }

  lemma CanonicalAnnotation(w: Valuation, universals: seq<int>, range: set<int>)
    requires (forall u :: u in universals ==> u > 0) && forall u :: u in range ==> u in universals
    ensures var r := Restricted(Assigned(w, universals), range); r == Canonical(universals, range, Positives(r))
  {
    var ls := Assigned(w, universals);
    var r := Restricted(ls, range);
    var v: Valuation := x => x in Positives(r);
    forall u | u in range ensures v(u) == w(u) {
      RestrictedIn(ls, range, u);
      AssignedIn(w, universals, u);
    }
    RestrictedAssigned(v, w, universals, range);
    RestrictedAssigned(v, x => x in Positives(r), universals, range);
  }

  /** An annotation made from the conflict's assignment is true there. */
  lemma AnnotationTrue(w: Valuation, universals: seq<int>, annotation: seq<int>, range: set<int>)
    requires (forall u :: u in universals ==> u > 0) && (forall u :: u in range ==> u in universals)
    requires Complete(annotation, range) && Positives(annotation) == Positives(Assigned(w, universals)) * range
    ensures AllTrue(w, annotation) && 0 !in annotation
  {
    forall i | 0 <= i < |annotation| ensures True(w, annotation[i]) && annotation[i] != 0 {
      var l := annotation[i];
      assert l in annotation && Abs(l) in range && -l !in annotation;
      AssignedIn(w, universals, Abs(l));
      assert Abs(l) in Positives(annotation) <==> w(Abs(l));
    }
  }

  /** Every arbiter is the one for its existential and assignment, in the order of the list of universals. */
  ghost predicate Catalogued(q: Formula, universals: seq<int>, arbs: map<int, Arbiter>, arbiterOf: map<(int, seq<int>), int>) {
    forall a :: a in arbs ==>
      var b := arbs[a];
      && b.existential in q.deps && (b.existential, b.annotation) in arbiterOf && arbiterOf[(b.existential, b.annotation)] == a
      && b.annotation == Canonical(universals, q.deps[b.existential], Positives(b.annotation))
      && Positives(b.annotation) <= q.universals
  }

  ghost function Key(b: Arbiter): (int, set<int>) { (b.existential, Positives(b.annotation)) }

  lemma {:induction false} InjectionCard(m: map<int, (int, set<int>)>, range: set<(int, set<int>)>)
    requires (forall a :: a in m ==> m[a] in range) && forall a, b :: a in m && b in m && m[a] == m[b] ==> a == b
    ensures |m.Keys| <= |range|
    decreases |m|
  {
    if m.Keys != {} {
      var a := Pick(m.Keys);
      var rest := m - {a};
      assert m.Keys == rest.Keys + {a} && |m.Keys| == |rest.Keys| + 1;
      assert |range - {m[a]}| == |range| - 1;
      InjectionCard(rest, range - {m[a]});
    }
  }

  lemma ArbitersBounded(q: Formula, universals: seq<int>, arbs: map<int, Arbiter>, arbiterOf: map<(int, seq<int>), int>)
    requires Catalogued(q, universals, arbs, arbiterOf)
    ensures |arbs.Keys| <= MaxArbiters(q)
  {
    var m := map a | a in arbs :: Key(arbs[a]);
    var range := Products(q.deps.Keys, Subsets(q.universals));
    forall a, b | a in m && b in m && m[a] == m[b] ensures a == b {
      assert arbs[a].annotation == Canonical(universals, q.deps[arbs[a].existential], Positives(arbs[a].annotation));
      assert arbs[b].annotation == Canonical(universals, q.deps[arbs[b].existential], Positives(arbs[b].annotation));
      assert arbs[a].annotation == arbs[b].annotation;
    }
    forall a | a in m ensures m[a] in range {
      assert arbs[a].existential in q.deps.Keys && Positives(arbs[a].annotation) in Subsets(q.universals);
    }
    assert m.Keys == arbs.Keys;
    InjectionCard(m, range);
    ProductsCard(q.deps.Keys, Subsets(q.universals));
    SubsetsCard(q.universals);
  }

  // ------------------------------------------------------- how many conflicts there can be

  /** Forcing clauses over n variables, and trials of a arbiters. */
  function Conflicts(n: nat, a: nat): nat { LearntMax(n) + TriedMax(a) }

  function LearntMax(n: nat): nat { 2 * n * Pow2(2 * n) }

  function TriedMax(a: nat): nat { Pow2(a) * Pow2(a) * Pow2(2 * a) }

  function MaxArbiters(q: Formula): nat { |q.deps.Keys| * Pow2(|q.universals|) }

  /** A bound on the conflicts, in the number of variables and dependencies alone. */
  ghost function MaxConflicts(q: Formula): nat {
    Conflicts(|Prefix(q)| + MaxArbiters(q), MaxArbiters(q))
  }

  lemma SignedCard(vars: set<int>)
    ensures |Signed(vars)| <= 2 * |vars|
  {
    var neg := set v | v in vars :: -v;
    NegationCard(vars, neg);
  }

  lemma {:induction false} NegationCard(vars: set<int>, neg: set<int>)
    requires neg == set v | v in vars :: -v
    ensures |neg| == |vars|
    decreases |vars|
  {
    if |vars| != 0 {
      var v := Pick(vars);
      forall y ensures y in neg <==> -y in vars { assert -(-y) == y; }
      var rest := set x | x in vars - {v} :: -x;
      forall y | y in neg - {-v} ensures y in rest { assert -y in vars - {v} && -(-y) == y; }
      forall y | y in rest ensures y in neg - {-v} {}
      assert neg - {-v} == rest;
      NegationCard(vars - {v}, rest);
    }
  }

  /** Forcing clauses speak about the prefix and the arbiters. */
  lemma LearntBounded(q: Formula, ext: map<int, set<int>>, arbs: set<int>, forced: map<int, seq<Clause>>)
    requires ForcedFit(q, ext, arbs, forced)
    ensures |Learnt(forced)| <= LearntMax(|Prefix(q)| + |arbs|)
  {
    hide Signed, Subsets, ForcedFit, Pow2, Learnt, Products;
    var vars := Prefix(q) + arbs;
    var lits := Signed(vars);
    var n := |Prefix(q)| + |arbs|;
    assert |vars| <= n;
    LearntPairs(q, ext, arbs, forced);
    SubsetCard(Learnt(forced), Products(lits, Subsets(lits)));
    ProductsCard(lits, Subsets(lits));
    SubsetsCard(lits);
    SignedCard(vars);
    Pow2Grows(|lits|, 2 * n);
    ProductGrows(|lits|, 2 * n, Pow2(|lits|), Pow2(2 * n));
  }

  lemma LearntPairs(q: Formula, ext: map<int, set<int>>, arbs: set<int>, forced: map<int, seq<Clause>>)
    requires ForcedFit(q, ext, arbs, forced)
    ensures var lits := Signed(Prefix(q) + arbs); Learnt(forced) <= Products(lits, Subsets(lits))
  {
    hide Signed, ForcedFit;
    var lits := Signed(Prefix(q) + arbs);
    forall p | p in Learnt(forced) ensures p in Products(lits, Subsets(lits)) {
      var l, i :| l in forced && 0 <= i < |forced[l]| && p == (l, LitsOf(forced[l][i]));
      LearntLits(q, ext, arbs, forced, l, i);
    }
  }

  lemma LearntLits(q: Formula, ext: map<int, set<int>>, arbs: set<int>, forced: map<int, seq<Clause>>, l: int, i: nat)
    requires ForcedFit(q, ext, arbs, forced) && l in forced && i < |forced[l]|
    ensures var lits := Signed(Prefix(q) + arbs); l in lits && LitsOf(forced[l][i]) <= lits
  {
    var vars := Prefix(q) + arbs;
    assert Abs(l) in vars;
    SignedHas(vars, l);
    var c := forced[l][i];
    assert OverVars(c, Visible(q, ext, Abs(l)) + arbs);
    forall m | m in LitsOf(c) ensures m in Signed(vars) {
      var j :| 0 <= j < |c| && c[j] == m;
      SignedHas(vars, m);
    }
  }

  lemma SignedHas(vars: set<int>, l: int)
    requires Abs(l) in vars
    ensures l in Signed(vars)
  {
    if l < 0 { assert l == -Abs(l); }
  }

  lemma TriedBounded(tried: set<Trial>, s: Standing)
    requires AllExcluded(tried, s)
    ensures |tried| <= TriedMax(|s.arbs|)
  {
    var parts, lits := Subsets(s.arbs), Subsets(Signed(s.arbs));
    var range := Products(Products(parts, parts), lits);
    forall t | t in tried ensures t in range { assert Excluded(t, s); }
    SubsetCard(tried, range);
    ProductsCard(Products(parts, parts), lits);
    ProductsCard(parts, parts);
    SubsetsCard(s.arbs);
    SubsetsCard(Signed(s.arbs));
    SignedCard(s.arbs);
    Pow2Grows(|Signed(s.arbs)|, 2 * |s.arbs|);
    ProductGrows(|parts| * |parts|, |parts| * |parts|, |lits|, Pow2(2 * |s.arbs|));
  }

  lemma ConflictsGrow(n: nat, n2: nat, a: nat, a2: nat)
    requires n <= n2 && a <= a2
    ensures Conflicts(n, a) <= Conflicts(n2, a2)
  {
    Pow2Grows(2 * n, 2 * n2);
    Pow2Grows(a, a2);
    Pow2Grows(2 * a, 2 * a2);
    ProductGrows(2 * n, 2 * n2, Pow2(2 * n), Pow2(2 * n2));
    ProductGrows(Pow2(a), Pow2(a2), Pow2(a), Pow2(a2));
    ProductGrows(Pow2(a) * Pow2(a), Pow2(a2) * Pow2(a2), Pow2(2 * a), Pow2(2 * a2));
  }

  /** All conflicts so far are among finitely many. */
  lemma ConflictsBounded(q: Formula, ext: map<int, set<int>>, universals: seq<int>, arbs: map<int, Arbiter>,
                         arbiterOf: map<(int, seq<int>), int>, forced: map<int, seq<Clause>>, tried: set<Trial>, s: Standing)
    requires ForcedFit(q, ext, arbs.Keys, forced) && Catalogued(q, universals, arbs, arbiterOf)
    requires AllExcluded(tried, s) && s.arbs == arbs.Keys
    ensures |Learnt(forced)| + |tried| <= MaxConflicts(q)
  {
    hide ForcedFit, Catalogued, AllExcluded, Learnt, Pow2, LearntMax, TriedMax, MaxArbiters, Prefix;
    LearntBounded(q, ext, arbs.Keys, forced);
    TriedBounded(tried, s);
    ArbitersBounded(q, universals, arbs, arbiterOf);
    ConflictsGrow(|Prefix(q)| + |arbs.Keys|, |Prefix(q)| + MaxArbiters(q), |arbs.Keys|, MaxArbiters(q));
  }
}
