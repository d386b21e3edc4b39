/** Dependency quantified Boolean formulas: clauses over signed integers, Skolem families. */
module Dqbf {

  type Clause = seq<int>

  type Valuation = int -> bool

  /** One function per existential, from the set of true universals. */
  type Family = (int, set<int>) -> bool

  function Abs(l: int): int { if l < 0 then -l else l }

  ghost predicate True(val: Valuation, l: int) { val(Abs(l)) == (l > 0) }

  ghost predicate Sat(val: Valuation, c: Clause) {
    exists i :: 0 <= i < |c| && True(val, c[i])
  }

  ghost predicate AllSat(val: Valuation, f: seq<Clause>) {
    forall i :: 0 <= i < |f| ==> Sat(val, f[i])
  }

  ghost predicate AllTrue(val: Valuation, ls: seq<int>) {
    forall i :: 0 <= i < |ls| ==> True(val, ls[i])
  }

  /** Universals, the universals each existential may depend on, and the clauses. */
  datatype Formula = Formula(universals: set<int>, deps: map<int, set<int>>, matrix: seq<Clause>)

  ghost predicate OverVars(c: Clause, vars: set<int>) {
    forall i :: 0 <= i < |c| ==> c[i] != 0 && Abs(c[i]) in vars
  }

  ghost predicate AllOver(f: seq<Clause>, vars: set<int>) {
    forall i :: 0 <= i < |f| ==> OverVars(f[i], vars)
  }

  ghost predicate WellFormed(q: Formula) {
    && q.universals !! q.deps.Keys && (forall v :: v in q.universals + q.deps.Keys ==> v > 0)
    && (forall e :: e in q.deps ==> q.deps[e] <= q.universals)
    && AllOver(q.matrix, q.universals + q.deps.Keys)
  }

  /** Each function is unchanged when universals outside its dependency set change. */
  ghost predicate Respects(q: Formula, s: Family) {
    forall e, u: set<int>, v: set<int> :: e in q.deps && u * q.deps[e] == v * q.deps[e] ==> s(e, u) == s(e, v)
  }

  /** The valuation that a family gives for an assignment of the universals; `aux` values the rest. */
  ghost function Induced(q: Formula, s: Family, aux: Valuation, u: set<int>): Valuation {
    v => if v in q.universals then v in u else if v in q.deps then s(v, u) else aux(v)
  }

  /** The family is a model of the formula. */
  ghost predicate Winning(q: Formula, s: Family) {
    && Respects(q, s)
    && forall u: set<int>, aux: Valuation :: u <= q.universals ==> AllSat(Induced(q, s, aux, u), q.matrix)
  }

  ghost predicate IsTrue(q: Formula) {
    exists s: Family :: Winning(q, s)
  }

  // ------------------------------------------------------- literals and lists

  ghost function Negated(ls: seq<int>): (r: seq<int>)
    ensures |r| == |ls| && forall i :: 0 <= i < |ls| ==> r[i] == -ls[i]
  {
    seq(|ls|, i requires 0 <= i < |ls| => -ls[i])
  }

  /** The literals whose variables lie in range, in order. */
  function Restricted(ls: seq<int>, range: set<int>): seq<int> {
    if ls == [] then []
    else Restricted(ls[..|ls| - 1], range) + if Abs(ls[|ls| - 1]) in range then [ls[|ls| - 1]] else []
  }

  lemma {:induction false} RestrictedIn(ls: seq<int>, range: set<int>, l: int)
    ensures l in Restricted(ls, range) <==> l in ls && Abs(l) in range
  {
    if ls != [] {
      RestrictedIn(ls[..|ls| - 1], range, l);
      assert ls == ls[..|ls| - 1] + [ls[|ls| - 1]];
    }
  }

  lemma RestrictedNext(ls: seq<int>, l: int, range: set<int>)
    ensures Restricted(ls + [l], range) == Restricted(ls, range) + if Abs(l) in range then [l] else []
  {
    assert (ls + [l])[..|ls|] == ls;
  }

  lemma RestrictedThree(a: int, b: int, c: int, range: set<int>)
    ensures Restricted([a, b, c], range) == (if Abs(a) in range then [a] else []) + (if Abs(b) in range then [b] else [])
                                            + (if Abs(c) in range then [c] else [])
  {
    hide Restricted;
    assert [a, b, c] == [a, b] + [c] && [a, b] == [a] + [b] && [a] == [] + [a];
    RestrictedNext([a, b], c, range);
    RestrictedNext([a], b, range);
    RestrictedNext([], a, range);
    RestrictedNone(range);
  }

  lemma RestrictedNone(range: set<int>)
    ensures Restricted([], range) == []
  {}

  lemma AllTrueIn(val: Valuation, ls: seq<int>)
    ensures AllTrue(val, ls) <==> forall l :: l in ls ==> True(val, l)
  {}

  lemma SatIn(val: Valuation, c: Clause)
    ensures Sat(val, c) <==> exists l :: l in c && True(val, l)
  {
    if l :| l in c && True(val, l) {
      var i :| 0 <= i < |c| && c[i] == l;
    }
  }

  lemma UnitMeans(val: Valuation, l: int)
    ensures Sat(val, [l]) <==> True(val, l)
    ensures AllSat(val, [[l]]) <==> True(val, l)
  {
    var c := [l];
    var f := [c];
    assert c[0] == l && f[0] == c;
  }

  lemma PairMeans(val: Valuation, a: int, b: int)
    ensures Sat(val, [a, b]) <==> True(val, a) || True(val, b)
    ensures AllSat(val, [[a, b]]) <==> True(val, a) || True(val, b)
  {
    var c := [a, b];
    var f := [c];
    assert c[0] == a && c[1] == b && f[0] == c;
  }

  lemma AllSatConcat(val: Valuation, f: seq<Clause>, g: seq<Clause>)
    ensures AllSat(val, f + g) <==> AllSat(val, f) && AllSat(val, g)
  {
    hide Sat;
    if AllSat(val, f + g) {
      forall i | 0 <= i < |f| ensures Sat(val, f[i]) { assert (f + g)[i] == f[i]; }
      forall i | 0 <= i < |g| ensures Sat(val, g[i]) { assert (f + g)[|f| + i] == g[i]; }
    }
  }

  lemma SatConcat(val: Valuation, c: Clause, d: Clause)
    ensures Sat(val, c + d) <==> Sat(val, c) || Sat(val, d)
  {
    SatIn(val, c);
    SatIn(val, d);
    SatIn(val, c + d);
  }

  /** A clause of negated literals and others fails only if all the literals hold and the others fail. */
  lemma NegatedFails(val: Valuation, ls: seq<int>, c: Clause)
    requires !Sat(val, Negated(ls) + c) && 0 !in ls
    ensures AllTrue(val, ls) && !Sat(val, c)
  {
    var d := Negated(ls) + c;
    forall i | 0 <= i < |ls| ensures True(val, ls[i]) {
      assert d[i] == -ls[i];
    }
    forall i | 0 <= i < |c| ensures !True(val, c[i]) {
      assert d[|ls| + i] == c[i];
    }
  }

  /** The universals that a complete assignment makes true. */
  ghost function Positives(ls: seq<int>): set<int> {
    set l | l in ls && l > 0
  }

  /** Every variable of range occurs with exactly one sign, and no other variable occurs. */
  ghost predicate Complete(ls: seq<int>, range: set<int>) {
    && (forall l :: l in ls ==> l != 0 && Abs(l) in range && -l !in ls)
    && (forall v :: v in range ==> v in ls || -v in ls)
  }

  lemma CompleteHolds(q: Formula, s: Family, aux: Valuation, ls: seq<int>, u: set<int>, range: set<int>)
    requires Complete(ls, range) && range <= q.universals && (forall v :: v in q.universals ==> v > 0)
    ensures AllTrue(Induced(q, s, aux, u), ls) <==> u * range == Positives(ls)
  {
    var val := Induced(q, s, aux, u);
    if AllTrue(val, ls) {
      AllTrueIn(val, ls);
      forall v ensures v in u * range <==> v in Positives(ls) {
        if v in range {
          assert v in ls ==> True(val, v);
          assert -v in ls ==> True(val, -v);
        }
      }
    }
    if u * range == Positives(ls) {
      forall i | 0 <= i < |ls| ensures True(val, ls[i]) {
        var l := ls[i];
        assert l in ls && Abs(l) in range;
        if l > 0 { assert l in Positives(ls); } else { assert -l !in Positives(ls); }
      }
    }
  }

  /** Valuations that agree on the variables of a clause agree on the clause. */
  lemma SatAgrees(v: Valuation, w: Valuation, c: Clause, vars: set<int>)
    requires OverVars(c, vars) && forall x :: x in vars ==> v(x) == w(x)
    ensures Sat(v, c) <==> Sat(w, c)
  {
    forall i | 0 <= i < |c| ensures True(v, c[i]) == True(w, c[i]) {
      assert Abs(c[i]) in vars;
    }
  }

  // ------------------------------------------------------- complementary literals

  ghost predicate NoComplement(c: Clause) {
    forall l :: l in c ==> -l !in c
  }

  lemma ComplementHolds(val: Valuation, f: Clause)
    requires !NoComplement(f) && 0 !in f
    ensures Sat(val, f)
  {
    var m :| m in f && -m in f;
    SatIn(val, f);
    assert True(val, m) || True(val, -m);
  }

  /** The family that falsifies f where it can. */
  ghost function Against(f: Clause): Family { (e, u) => -e in f }

  lemma AgainstFails(q: Formula, f: Clause, aux: Valuation)
    requires WellFormed(q) && OverVars(f, q.universals + q.deps.Keys) && NoComplement(f)
    ensures !Sat(Induced(q, Against(f), aux, set v | v in q.universals && -v in f), f)
  {
    var val := Induced(q, Against(f), aux, set v | v in q.universals && -v in f);
    forall i | 0 <= i < |f| ensures !True(val, f[i]) {
      assert f[i] in f && Abs(f[i]) in q.universals + q.deps.Keys;
      assert -f[i] !in f && -(-f[i]) == f[i];
    }
  }
}
