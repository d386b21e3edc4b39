/** Universal reduction of clauses relative to a dependency map. */
module ForallReduction {
  import opened Dqbf

  /** Some existential of the clause may depend on v. */
  ghost predicate Needed(q: Formula, es: seq<int>, v: int) {
    exists l :: l in es && Abs(l) in q.deps && v in q.deps[Abs(l)]
  }

  ghost function NeededOnly(q: Formula, es: seq<int>, us: seq<int>): seq<int> {
    if us == [] then []
    else NeededOnly(q, es, us[..|us| - 1]) + if Needed(q, es, Abs(us[|us| - 1])) then [us[|us| - 1]] else []
  }

  /** The existentials of a clause, then the universals that one of them may depend on. */
  ghost function Reduced(q: Formula, innermost: set<int>, c: Clause): Clause {
    if Restricted(c, innermost) != [] then c
    else
      var es := Restricted(c, q.deps.Keys);
      es + NeededOnly(q, es, Restricted(c, q.universals))
  }

  method ApplyForallReduction(q: Formula, innermost: set<int>, clause: Clause) returns (res: Clause, reduced: nat)
    ensures res == Reduced(q, innermost, clause)
    ensures Restricted(clause, innermost) == [] ==>
              reduced == |Restricted(clause, q.deps.Keys)| + |Restricted(clause, q.universals)| - |res|
    ensures Restricted(clause, innermost) != [] ==> reduced == 0
  {
    if Restricted(clause, innermost) != [] {
      return clause, 0;
    }
    var universals := Restricted(clause, q.universals);
    var existentials := Restricted(clause, q.deps.Keys);
    res := existentials;
    reduced := 0;
    for i := 0 to |universals|
      invariant res == existentials + NeededOnly(q, existentials, universals[..i])
      invariant reduced == |existentials| + i - |res|
    {
      var v := Abs(universals[i]);
      var isDependency := false;
      for j := 0 to |existentials|
        invariant !isDependency
        invariant forall k :: 0 <= k < j ==> Abs(existentials[k]) in q.deps && v !in q.deps[Abs(existentials[k])]
      {
        RestrictedIn(clause, q.deps.Keys, existentials[j]);
        if v in q.deps[Abs(existentials[j])] {
          isDependency := true;
          break;
        }
      }
      assert isDependency <==> Needed(q, existentials, v);
      assert universals[..i + 1][..i] == universals[..i];
      if isDependency {
        res := res + [universals[i]];
      } else {
        reduced := reduced + 1;
      }
    }
    assert universals[..|universals|] == universals;
  }

  /** The loop over the matrix. */
  method ReduceMatrix(q: Formula, innermost: set<int>) returns (matrix: seq<Clause>)
    ensures |matrix| == |q.matrix| && forall i :: 0 <= i < |matrix| ==> matrix[i] == Reduced(q, innermost, q.matrix[i])
  {
    matrix := q.matrix;
    for i := 0 to |matrix|
      invariant |matrix| == |q.matrix|
      invariant forall k :: 0 <= k < i ==> matrix[k] == Reduced(q, innermost, q.matrix[k])
      invariant forall k :: i <= k < |matrix| ==> matrix[k] == q.matrix[k]
    {
      var clause, _ := ApplyForallReduction(q, innermost, matrix[i]);
      matrix := matrix[i := clause];
    }
  }

  // ------------------------------------------------------- what is kept

  lemma {:induction false} NeededOnlyIn(q: Formula, es: seq<int>, us: seq<int>, l: int)
    ensures l in NeededOnly(q, es, us) <==> l in us && Needed(q, es, Abs(l))
  {
    if us != [] {
      NeededOnlyIn(q, es, us[..|us| - 1], l);
      assert us == us[..|us| - 1] + [us[|us| - 1]];
    }
  }

  /** A literal is dropped only if it is universal and no existential of the clause may depend on it. */
  lemma ReducedIn(q: Formula, innermost: set<int>, c: Clause, l: int)
    requires Restricted(c, innermost) == []
    ensures l in Reduced(q, innermost, c) <==>
              || (l in c && Abs(l) in q.deps.Keys)
              || (l in c && Abs(l) in q.universals && Needed(q, Restricted(c, q.deps.Keys), Abs(l)))
  {
    hide Needed, Restricted;
    var es := Restricted(c, q.deps.Keys);
    NeededOnlyIn(q, es, Restricted(c, q.universals), l);
    RestrictedIn(c, q.deps.Keys, l);
    RestrictedIn(c, q.universals, l);
  }

  lemma ReducedVars(q: Formula, innermost: set<int>, c: Clause)
    requires WellFormed(q) && OverVars(c, q.universals + q.deps.Keys)
    ensures OverVars(Reduced(q, innermost, c), q.universals + q.deps.Keys)
    ensures forall l :: l in Reduced(q, innermost, c) ==> l in c
  {
    var r := Reduced(q, innermost, c);
    forall l | l in r ensures l in c && l != 0 && Abs(l) in q.universals + q.deps.Keys {
      if Restricted(c, innermost) == [] { ReducedIn(q, innermost, c, l); }
      var i :| 0 <= i < |c| && c[i] == l;
    }
    forall i | 0 <= i < |r| ensures r[i] != 0 && Abs(r[i]) in q.universals + q.deps.Keys { assert r[i] in r; }
  }

  lemma SatMore(val: Valuation, c: Clause, d: Clause)
    requires Sat(val, c) && forall l :: l in c ==> l in d
    ensures Sat(val, d)
  {
    SatIn(val, c);
    SatIn(val, d);
  }

  // ------------------------------------------------------- the family cannot tell

  /** u on the universals that the existentials of c may see, against c elsewhere. */
  ghost function Worst(q: Formula, c: Clause, u: set<int>): set<int> {
    set v | v in q.universals &&
            (if Needed(q, Restricted(c, q.deps.Keys), v) || (v !in c && -v !in c) then v in u else -v in c)
  }

  lemma WorstSame(q: Formula, s: Family, c: Clause, u: set<int>, e: int)
    requires WellFormed(q) && Respects(q, s) && u <= q.universals && e in q.deps && (e in c || -e in c)
    ensures s(e, Worst(q, c, u)) == s(e, u)
  {
    var es, w := Restricted(c, q.deps.Keys), Worst(q, c, u);
    RestrictedIn(c, q.deps.Keys, e);
    RestrictedIn(c, q.deps.Keys, -e);
    forall v ensures v in w * q.deps[e] <==> v in u * q.deps[e] {
      if v in q.deps[e] {
        assert Abs(e) == e && Abs(-e) == e;
        assert Needed(q, es, v);
      }
    }
    assert w * q.deps[e] == u * q.deps[e];
  }

  /** If the reduced clause fails at u, the clause fails at the worst assignment for it. */
  lemma FailsAtWorst(q: Formula, s: Family, aux: Valuation, innermost: set<int>, c: Clause, u: set<int>)
    requires WellFormed(q) && Respects(q, s) && OverVars(c, q.universals + q.deps.Keys) && NoComplement(c)
    requires u <= q.universals && Restricted(c, innermost) == []
    ensures Sat(Induced(q, s, aux, Worst(q, c, u)), c) ==> Sat(Induced(q, s, aux, u), Reduced(q, innermost, c))
  {
    var w := Worst(q, c, u);
    var val, val2 := Induced(q, s, aux, w), Induced(q, s, aux, u);
    if Sat(val, c) {
      var i :| 0 <= i < |c| && True(val, c[i]);
      var l := c[i];
      assert l in c && l != 0 && Abs(l) in q.universals + q.deps.Keys;
      ReducedIn(q, innermost, c, l);
      WorstLiteral(q, s, aux, c, u, l);
      SatIn(val2, Reduced(q, innermost, c));
    }
  }

  lemma WorstLiteral(q: Formula, s: Family, aux: Valuation, c: Clause, u: set<int>, l: int)
    requires WellFormed(q) && Respects(q, s) && NoComplement(c) && u <= q.universals
    requires l in c && l != 0 && Abs(l) in q.universals + q.deps.Keys
    requires True(Induced(q, s, aux, Worst(q, c, u)), l)
    ensures True(Induced(q, s, aux, u), l)
    ensures Abs(l) in q.universals ==> Needed(q, Restricted(c, q.deps.Keys), Abs(l))
  {
    hide Restricted, Needed;
    var w := Worst(q, c, u);
    if Abs(l) in q.deps {
      WorstSame(q, s, c, u, Abs(l));
    } else {
      assert -l !in c;
    }
  }

  /** The clause holds under the family for every assignment of the universals. */
  ghost predicate Always(q: Formula, s: Family, c: Clause) {
    forall u: set<int>, aux: Valuation :: u <= q.universals ==> Sat(Induced(q, s, aux, u), c)
  }

  /** A family satisfies a clause everywhere exactly when it satisfies the reduced clause everywhere. */
  lemma ReductionKeepsMeaning(q: Formula, s: Family, innermost: set<int>, c: Clause)
    requires WellFormed(q) && Respects(q, s) && OverVars(c, q.universals + q.deps.Keys) && NoComplement(c)
    ensures Always(q, s, c) <==> Always(q, s, Reduced(q, innermost, c))
  {
    hide Sat, Induced, Reduced, OverVars;
    ReducedVars(q, innermost, c);
    if Always(q, s, c) {
      forall u: set<int>, aux: Valuation | u <= q.universals ensures Sat(Induced(q, s, aux, u), Reduced(q, innermost, c)) {
        if Restricted(c, innermost) == [] {
          assert Worst(q, c, u) <= q.universals;
          FailsAtWorst(q, s, aux, innermost, c, u);
        } else {
          Untouched(q, innermost, c);
        }
      }
    }
    if Always(q, s, Reduced(q, innermost, c)) {
      forall u: set<int>, aux: Valuation | u <= q.universals ensures Sat(Induced(q, s, aux, u), c) {
        SatMore(Induced(q, s, aux, u), Reduced(q, innermost, c), c);
      }
    }
  }

  lemma Untouched(q: Formula, innermost: set<int>, c: Clause)
    requires Restricted(c, innermost) != []
    ensures Reduced(q, innermost, c) == c
  {}

  lemma SameInduced(q: Formula, q2: Formula, s: Family)
    requires q2 == q.(matrix := q2.matrix)
    ensures Respects(q, s) <==> Respects(q2, s)
    ensures forall c :: Always(q, s, c) <==> Always(q2, s, c)
  {
    forall c ensures Always(q, s, c) <==> Always(q2, s, c) {
      forall u: set<int>, aux: Valuation ensures Sat(Induced(q, s, aux, u), c) <==> Sat(Induced(q2, s, aux, u), c) {
        SameValues(Induced(q, s, aux, u), Induced(q2, s, aux, u), c);
      }
    }
  }

  lemma SameValues(v: Valuation, w: Valuation, c: Clause)
    requires forall x :: v(x) == w(x)
    ensures Sat(v, c) <==> Sat(w, c)
  {
    forall i | 0 <= i < |c| ensures True(v, c[i]) == True(w, c[i]) {}
  }

  lemma WinningIsAlways(q: Formula, s: Family)
    requires Respects(q, s)
    ensures Winning(q, s) <==> forall i :: 0 <= i < |q.matrix| ==> Always(q, s, q.matrix[i])
  {
    hide Sat, Respects;
    if Winning(q, s) {
      forall i, u: set<int>, aux: Valuation | 0 <= i < |q.matrix| && u <= q.universals
        ensures Sat(Induced(q, s, aux, u), q.matrix[i])
      {
        assert AllSat(Induced(q, s, aux, u), q.matrix);
      }
    }
  }

  /** A complementary pair survives the reduction: nothing is dropped, or the pair is existential or needed. */
  ghost predicate KeepsPair(q: Formula, innermost: set<int>, c: Clause) {
    || Restricted(c, innermost) != []
    || exists l :: l in c && -l in c && (Abs(l) in q.deps.Keys || Needed(q, Restricted(c, q.deps.Keys), Abs(l)))
  }

  lemma PairKept(q: Formula, innermost: set<int>, c: Clause)
    requires WellFormed(q) && OverVars(c, q.universals + q.deps.Keys) && !NoComplement(c)
    ensures !NoComplement(Reduced(q, innermost, c)) <==> KeepsPair(q, innermost, c)
  {
    hide Reduced, Needed, Restricted;
    if Restricted(c, innermost) != [] {
      Untouched(q, innermost, c);
    } else {
      forall l ensures l in Reduced(q, innermost, c) && -l in Reduced(q, innermost, c) <==>
                       l in c && -l in c && (Abs(l) in q.deps.Keys || Needed(q, Restricted(c, q.deps.Keys), Abs(l)))
      {
        ReducedIn(q, innermost, c, l);
        ReducedIn(q, innermost, c, -l);
        if l in c { InPrefix(c, q.universals + q.deps.Keys, l); }
      }
    }
  }

  lemma InPrefix(c: Clause, vars: set<int>, l: int)
    requires OverVars(c, vars) && l in c
    ensures Abs(l) in vars && Abs(-l) == Abs(l)
  {
    var i :| 0 <= i < |c| && c[i] == l;
  }

  /** The reduction of a clause keeps its meaning for every family exactly when the clause has no
      complementary literals, or one complementary pair survives. */
  lemma ReductionExact(q: Formula, innermost: set<int>, c: Clause)
    requires WellFormed(q) && OverVars(c, q.universals + q.deps.Keys)
    ensures (forall s: Family :: Respects(q, s) ==> (Always(q, s, c) <==> Always(q, s, Reduced(q, innermost, c))))
            <==> NoComplement(c) || KeepsPair(q, innermost, c)
  {
    hide Sat, Induced, Reduced, NoComplement, Respects, OverVars, KeepsPair;
    var r := Reduced(q, innermost, c);
    NonZeros(q, innermost, c);
    if NoComplement(c) {
      forall s: Family | Respects(q, s) ensures Always(q, s, c) <==> Always(q, s, r) {
        ReductionKeepsMeaning(q, s, innermost, c);
      }
    } else {
      PairKept(q, innermost, c);
      forall s: Family ensures Always(q, s, c) { ComplementAlways(q, s, c); }
      if !NoComplement(r) {
        forall s: Family ensures Always(q, s, r) { ComplementAlways(q, s, r); }
      } else {
        AgainstNotAlways(q, r);
      }
    }
  }

  /** The reduction of a whole matrix leaves the set of models unchanged, if every complementary clause keeps a pair. */
  lemma MatrixReductionKeepsModels(q: Formula, innermost: set<int>, q2: Formula, s: Family)
    requires WellFormed(q) && q2 == q.(matrix := q2.matrix) && |q2.matrix| == |q.matrix|
    requires forall i :: 0 <= i < |q.matrix| ==>
               && (NoComplement(q.matrix[i]) || KeepsPair(q, innermost, q.matrix[i]))
               && q2.matrix[i] == Reduced(q, innermost, q.matrix[i])
    ensures Winning(q, s) <==> Winning(q2, s)
  {
    hide Sat, Reduced, OverVars, NoComplement, KeepsPair;
    SameInduced(q, q2, s);
    if Respects(q, s) {
      forall i | 0 <= i < |q.matrix| ensures Always(q, s, q.matrix[i]) <==> Always(q, s, q2.matrix[i]) {
        assert OverVars(q.matrix[i], q.universals + q.deps.Keys);
        ReductionExact(q, innermost, q.matrix[i]);
      }
      WinningIsAlways(q, s);
      WinningIsAlways(q2, s);
    }
  }

  /** The smallest failure: x or not x or e, where e may not depend on x, is reduced to e alone. */
  lemma ReductionMisleads()
    ensures var q, s: Family := Formula({1}, map[2 := {}], [[1, -1, 2]]), (e, u) => false;
            && WellFormed(q) && Reduced(q, {}, [1, -1, 2]) == [2]
            && Winning(q, s) && !Winning(q.(matrix := [[2]]), s)
  {
    var c := [1, -1, 2];
    var q, s: Family := Formula({1}, map[2 := {}], [c]), (e, u) => false;
    assert q.deps.Keys == {2};
    assert OverVars(c, {1, 2}) && q.matrix[0] == c;
    assert WellFormed(q);
    RestrictedThree(1, -1, 2, {2});
    RestrictedThree(1, -1, 2, {1});
    RestrictedThree(1, -1, 2, {});
    MisleadingReduct(q, c);
    forall u: set<int>, aux: Valuation | u <= q.universals ensures AllSat(Induced(q, s, aux, u), q.matrix) {
      assert c[0] == 1 && c[1] == -1;
      assert True(Induced(q, s, aux, u), c[0]) || True(Induced(q, s, aux, u), c[1]);
    }
    var aux: Valuation := v => false;
    var r := q.(matrix := [[2]]);
    assert r.matrix[0] == [2] && !Sat(Induced(r, s, aux, {}), r.matrix[0]);
    assert !AllSat(Induced(r, s, aux, {}), r.matrix);
  }

  lemma MisleadingReduct(q: Formula, c: Clause)
    requires q == Formula({1}, map[2 := {}], [c]) && c == [1, -1, 2] && q.deps.Keys == {2}
    requires Restricted(c, {2}) == [2] && Restricted(c, {1}) == [1, -1] && Restricted(c, {}) == []
    ensures Reduced(q, {}, c) == [2]
  {
    hide Restricted;
    assert !Needed(q, [2], 1);
    NothingNeeded(q, [2], [1, -1]);
  }

  lemma {:induction false} NothingNeeded(q: Formula, es: seq<int>, us: seq<int>)
    requires forall l :: l in us ==> !Needed(q, es, Abs(l))
    ensures NeededOnly(q, es, us) == []
  {
    hide Needed;
    if us != [] { NothingNeeded(q, es, us[..|us| - 1]); }
  }

  lemma NonZeros(q: Formula, innermost: set<int>, c: Clause)
    requires WellFormed(q) && OverVars(c, q.universals + q.deps.Keys)
    ensures 0 !in c && 0 !in Reduced(q, innermost, c)
    ensures OverVars(Reduced(q, innermost, c), q.universals + q.deps.Keys)
  {
    ReducedVars(q, innermost, c);
  }

  lemma ComplementAlways(q: Formula, s: Family, c: Clause)
    requires !NoComplement(c) && 0 !in c
    ensures Always(q, s, c)
  {
    hide NoComplement, Sat, Induced;
    forall u: set<int>, aux: Valuation | u <= q.universals ensures Sat(Induced(q, s, aux, u), c) {
      ComplementHolds(Induced(q, s, aux, u), c);
    }
  }

  lemma AgainstNotAlways(q: Formula, r: Clause)
    requires WellFormed(q) && OverVars(r, q.universals + q.deps.Keys) && NoComplement(r)
    ensures Respects(q, Against(r)) && !Always(q, Against(r), r)
  {
    hide Sat, Induced, OverVars, NoComplement;
    var aux: Valuation := v => false;
    AgainstFails(q, r, aux);
    assert (set v | v in q.universals && -v in r) <= q.universals;
  }
}
