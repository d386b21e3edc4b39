/** Unate literals: the formula that searches for them, and what a refutation of a query means. */
module Unates {
  import opened Dqbf

  // ------------------------------------------------------- the negated matrix

  /** The indicator of clause i is true. */
  ghost predicate Indicated(val: Valuation, first: int, i: int) { val(first + 1 + i) }

  /** Any literal of c makes t true. */
  function LitClauses(c: Clause, t: int): seq<Clause> {
    if c == [] then [] else LitClauses(c[..|c| - 1], t) + [[-c[|c| - 1], t]]
  }

  /** Variable first + 1 + i must be true when clause i is satisfied. */
  function Indicators(f: seq<Clause>, first: int): seq<Clause> {
    if f == [] then [] else Indicators(f[..|f| - 1], first) + LitClauses(f[|f| - 1], first + |f|)
  }

  function NotAll(n: nat, first: int): Clause {
    if n == 0 then [] else NotAll(n - 1, first) + [-(first + n)]
  }

  function Negation(f: seq<Clause>, first: int): seq<Clause> {
    Indicators(f, first) + [NotAll(|f|, first)]
  }

  lemma {:induction false} LitClausesMean(val: Valuation, c: Clause, t: int)
    requires 0 !in c && t > 0
    ensures AllSat(val, LitClauses(c, t)) <==> (Sat(val, c) ==> val(t))
  {
    if c != [] {
      var n := |c| - 1;
      LitClausesMean(val, c[..n], t);
      PairMeans(val, -c[n], t);
      AllSatConcat(val, LitClauses(c[..n], t), [[-c[n], t]]);
      SatConcat(val, c[..n], [c[n]]);
      assert c == c[..n] + [c[n]];
      UnitMeans(val, c[n]);
    }
  }

  lemma {:induction false} IndicatorsMean(val: Valuation, f: seq<Clause>, first: int)
    requires first >= 0 && forall i :: 0 <= i < |f| ==> 0 !in f[i]
    ensures AllSat(val, Indicators(f, first)) <==> forall i :: 0 <= i < |f| && Sat(val, f[i]) ==> Indicated(val, first, i)
  {
    hide Sat;
    if f != [] {
      var n := |f| - 1;
      IndicatorsMean(val, f[..n], first);
      LitClausesMean(val, f[n], first + |f|);
      assert Indicated(val, first, n) == val(first + |f|);
      AllSatConcat(val, Indicators(f[..n], first), LitClauses(f[n], first + |f|));
      assert forall i :: 0 <= i < n ==> f[..n][i] == f[i];
    }
  }

  lemma {:induction false} NotAllMeans(val: Valuation, n: nat, first: int)
    requires first >= 0
    ensures Sat(val, NotAll(n, first)) <==> exists i :: 0 <= i < n && !Indicated(val, first, i)
  {
    if n > 0 {
      NotAllMeans(val, n - 1, first);
      SatConcat(val, NotAll(n - 1, first), [-(first + n)]);
      assert [-(first + n)][0] == -(first + n);
      assert !Indicated(val, first, n - 1) <==> Sat(val, [-(first + n)]);
    }
  }

  /** With the right indicator values the negation holds exactly when some clause fails. */
  lemma NegationMeans(val: Valuation, f: seq<Clause>, first: int)
    requires first >= 0 && forall i :: 0 <= i < |f| ==> 0 !in f[i]
    ensures AllSat(val, Negation(f, first)) <==>
              && (forall i :: 0 <= i < |f| && Sat(val, f[i]) ==> Indicated(val, first, i))
              && (exists i :: 0 <= i < |f| && !Indicated(val, first, i))
  {
    hide Sat, Indicators, NotAll;
    IndicatorsMean(val, f, first);
    NotAllMeans(val, |f|, first);
    AllSatConcat(val, Indicators(f, first), [NotAll(|f|, first)]);
    assert [NotAll(|f|, first)][0] == NotAll(|f|, first);
  }

  // ------------------------------------------------------- renaming

  function RenameLit(l: int, ren: map<int, int>): int {
    if Abs(l) in ren then if l < 0 then -ren[Abs(l)] else ren[Abs(l)] else l
  }

  function RenameClause(c: Clause, ren: map<int, int>): Clause {
    seq(|c|, i requires 0 <= i < |c| => RenameLit(c[i], ren))
  }

  function RenameAll(f: seq<Clause>, ren: map<int, int>): seq<Clause> {
    seq(|f|, i requires 0 <= i < |f| => RenameClause(f[i], ren))
  }

  /** The valuation that the renamed variables stand for. */
  ghost function Copied(val: Valuation, ren: map<int, int>): Valuation {
    v => if v in ren then val(ren[v]) else val(v)
  }

  lemma RenameMeans(val: Valuation, f: seq<Clause>, ren: map<int, int>)
    requires (forall i :: 0 <= i < |f| ==> 0 !in f[i]) && forall v :: v in ren ==> ren[v] > 0
    ensures AllSat(val, RenameAll(f, ren)) <==> AllSat(Copied(val, ren), f)
  {
    forall i | 0 <= i < |f| ensures Sat(val, RenameAll(f, ren)[i]) <==> Sat(Copied(val, ren), f[i]) {
      RenameClauseMeans(val, f[i], ren);
    }
  }

  lemma RenameClauseMeans(val: Valuation, c: Clause, ren: map<int, int>)
    requires 0 !in c && forall v :: v in ren ==> ren[v] > 0
    ensures Sat(val, RenameClause(c, ren)) <==> Sat(Copied(val, ren), c)
  {
    var d := RenameClause(c, ren);
    forall i | 0 <= i < |c| ensures True(val, d[i]) == True(Copied(val, ren), c[i]) {
      assert c[i] in c;
      RenamedTrue(val, c[i], ren);
    }
  }

  lemma RenamedTrue(val: Valuation, l: int, ren: map<int, int>)
    requires l != 0 && forall v :: v in ren ==> ren[v] > 0
    ensures True(val, RenameLit(l, ren)) == True(Copied(val, ren), l)
  {}

  // ------------------------------------------------------- equalities with switches

  function Equality(a: int, b: int, s: int): seq<Clause> {
    [[-s, -a, b], [-s, a, -b]]
  }

  lemma EqualityMeans(val: Valuation, a: int, b: int, s: int)
    requires a > 0 && b > 0 && s > 0
    ensures AllSat(val, Equality(a, b, s)) <==> (val(s) ==> val(a) == val(b))
  {
    var c, d := [-s, -a, b], [-s, a, -b];
    assert c[0] == -s && c[1] == -a && c[2] == b && d[0] == -s && d[1] == a && d[2] == -b;
    assert Equality(a, b, s)[0] == c && Equality(a, b, s)[1] == d;
  }

  function Equalities(xs: seq<int>, ys: seq<int>, ss: seq<int>): seq<Clause>
    requires |xs| == |ys| == |ss|
  {
    if xs == [] then []
    else
      var n := |xs| - 1;
      Equalities(xs[..n], ys[..n], ss[..n]) + Equality(xs[n], ys[n], ss[n])
  }

  ghost predicate AllPositive(xs: seq<int>) {
    forall i :: 0 <= i < |xs| ==> xs[i] > 0
  }

  lemma {:induction false} EqualitiesMean(val: Valuation, xs: seq<int>, ys: seq<int>, ss: seq<int>)
    requires |xs| == |ys| == |ss| && AllPositive(xs) && AllPositive(ys) && AllPositive(ss)
    ensures AllSat(val, Equalities(xs, ys, ss)) <==> forall i :: 0 <= i < |xs| && val(ss[i]) ==> val(xs[i]) == val(ys[i])
  {
    hide Sat, Equality;
    if xs != [] {
      var n := |xs| - 1;
      EqualitiesMean(val, xs[..n], ys[..n], ss[..n]);
      EqualityMeans(val, xs[n], ys[n], ss[n]);
      AllSatConcat(val, Equalities(xs[..n], ys[..n], ss[..n]), Equality(xs[n], ys[n], ss[n]));
      assert forall i :: 0 <= i < n ==> xs[..n][i] == xs[i] && ys[..n][i] == ys[i] && ss[..n][i] == ss[i];
    }
  }

  // ------------------------------------------------------- the search formula

  /** Fresh variables in the order in which they are taken: indicators, then a copy and a switch for
      each existential. */
  ghost predicate Fresh(q: Formula, xs: seq<int>, ys: seq<int>, ss: seq<int>, first: int) {
    && WellFormed(q) && first >= 0 && (forall v :: v in q.universals + q.deps.Keys ==> v <= first)
    && |xs| == |ys| == |ss| && (forall v :: v in xs <==> v in q.deps.Keys)
    && (forall i, j :: 0 <= i < j < |xs| ==> xs[i] != xs[j])
    && (forall i :: 0 <= i < |xs| ==> ys[i] == first + |q.matrix| + 1 + 2 * i && ss[i] == first + |q.matrix| + 2 + 2 * i)
  }

  ghost predicate Pairs(xs: seq<int>, ys: seq<int>, ren: map<int, int>)
    requires |xs| == |ys|
  {
    (forall i :: 0 <= i < |xs| ==> xs[i] in ren && ren[xs[i]] == ys[i]) && (forall v :: v in ren ==> v in xs)
  }

  function SearchFormula(matrix: seq<Clause>, xs: seq<int>, ys: seq<int>, ss: seq<int>, first: int, ren: map<int, int>): seq<Clause>
    requires |xs| == |ys| == |ss|
  {
    matrix + RenameAll(Negation(matrix, first), ren) + Equalities(xs, ys, ss)
  }

  lemma MatrixNonZero(q: Formula)
    requires WellFormed(q)
    ensures forall i :: 0 <= i < |q.matrix| ==> 0 !in q.matrix[i]
  {
    forall i | 0 <= i < |q.matrix| ensures 0 !in q.matrix[i] {
      assert OverVars(q.matrix[i], q.universals + q.deps.Keys);
    }
  }

  lemma {:induction false} NegationNonZero(f: seq<Clause>, first: int)
    requires first >= 0 && forall i :: 0 <= i < |f| ==> 0 !in f[i]
    ensures forall i :: 0 <= i < |Negation(f, first)| ==> 0 !in Negation(f, first)[i]
  {
    IndicatorsNonZero(f, first);
    NotAllNonZero(|f|, first);
  }

  lemma {:induction false} IndicatorsNonZero(f: seq<Clause>, first: int)
    requires first >= 0 && forall i :: 0 <= i < |f| ==> 0 !in f[i]
    ensures forall i :: 0 <= i < |Indicators(f, first)| ==> 0 !in Indicators(f, first)[i]
  {
    if f != [] {
      var n := |f| - 1;
      IndicatorsNonZero(f[..n], first);
      LitClausesNonZero(f[n], first + |f|);
    }
  }

  lemma {:induction false} LitClausesNonZero(c: Clause, t: int)
    requires 0 !in c && t != 0
    ensures forall i :: 0 <= i < |LitClauses(c, t)| ==> 0 !in LitClauses(c, t)[i]
  {
    if c != [] { LitClausesNonZero(c[..|c| - 1], t); }
  }

  lemma {:induction false} NotAllNonZero(n: nat, first: int)
    requires first >= 0
    ensures 0 !in NotAll(n, first)
  {
    if n > 0 { NotAllNonZero(n - 1, first); }
  }

  /** A valuation of the search formula is a model of the matrix and a copy of it, equal where switched,
      that fails some clause. */
  lemma SearchMeans(q: Formula, xs: seq<int>, ys: seq<int>, ss: seq<int>, first: int, ren: map<int, int>, val: Valuation)
    requires Fresh(q, xs, ys, ss, first) && Pairs(xs, ys, ren)
    ensures AllSat(val, SearchFormula(q.matrix, xs, ys, ss, first, ren)) <==>
              && AllSat(val, q.matrix)
              && (forall i :: 0 <= i < |q.matrix| && Sat(Copied(val, ren), q.matrix[i]) ==> Indicated(val, first, i))
              && (exists i :: 0 <= i < |q.matrix| && !Indicated(val, first, i))
              && (forall i :: 0 <= i < |xs| && val(ss[i]) ==> val(xs[i]) == val(ys[i]))
  {
    hide Sat, Negation, RenameAll, Equalities, SearchFormula;
    MatrixNonZero(q);
    FreshPositive(q, xs, ys, ss, first, ren);
    NegationNonZero(q.matrix, first);
    RenameMeans(val, Negation(q.matrix, first), ren);
    NegationMeans(Copied(val, ren), q.matrix, first);
    EqualitiesMean(val, xs, ys, ss);
    SearchParts(q.matrix, xs, ys, ss, first, ren, val);
    forall i | 0 <= i < |q.matrix| ensures Indicated(Copied(val, ren), first, i) == Indicated(val, first, i) {}
  }

  lemma SearchParts(matrix: seq<Clause>, xs: seq<int>, ys: seq<int>, ss: seq<int>, first: int, ren: map<int, int>, val: Valuation)
    requires |xs| == |ys| == |ss|
    ensures AllSat(val, SearchFormula(matrix, xs, ys, ss, first, ren)) <==>
              && AllSat(val, matrix) && AllSat(val, RenameAll(Negation(matrix, first), ren))
              && AllSat(val, Equalities(xs, ys, ss))
  {
    hide AllSat, RenameAll, Negation, Equalities;
    AllSatConcat(val, matrix + RenameAll(Negation(matrix, first), ren), Equalities(xs, ys, ss));
    AllSatConcat(val, matrix, RenameAll(Negation(matrix, first), ren));
  }

  lemma FreshPositive(q: Formula, xs: seq<int>, ys: seq<int>, ss: seq<int>, first: int, ren: map<int, int>)
    requires Fresh(q, xs, ys, ss, first) && Pairs(xs, ys, ren)
    ensures AllPositive(xs) && AllPositive(ys) && AllPositive(ss) && forall v :: v in ren ==> 0 < v <= first && ren[v] > 0
  {
    forall i | 0 <= i < |xs| ensures 0 < xs[i] <= first { assert xs[i] in xs; }
    forall v | v in ren ensures 0 < v <= first && ren[v] > 0 {
      var i :| 0 <= i < |xs| && xs[i] == v;
    }
  }

  // ------------------------------------------------------- what a refuted query means

  ghost function Set(val: Valuation, l: int): Valuation {
    v => if v == Abs(l) then l > 0 else val(v)
  }

  /** Whenever the matrix and the literals found so far hold, making l true keeps the matrix. */
  ghost predicate Unate(matrix: seq<Clause>, found: seq<int>, l: int) {
    forall val: Valuation :: AllSat(val, matrix) && AllTrue(val, found) ==> AllSat(Set(val, l), matrix)
  }

  /** Exactly: all switches but that of variable k, the literals found, and l failing in the original and holding in the copy. */
  ghost predicate Query(assumptions: seq<int>, ss: seq<int>, k: nat, found: seq<int>, l: int, copy: int) {
    forall a :: a in assumptions <==>
      || (exists i :: 0 <= i < |ss| && i != k && a == ss[i])
      || a in found || a == -l || a == copy
  }

  /** The valuation that a counterexample to unateness gives. */
  ghost function Witness(q: Formula, xs: seq<int>, ss: seq<int>, first: int, k: nat, val: Valuation, l: int): Valuation
    requires k < |xs| == |ss|
  {
    v =>
      if first < v <= first + |q.matrix| then Sat(Set(val, l), q.matrix[v - first - 1])
      else if v > first + |q.matrix| then
        var i := (v - first - |q.matrix| - 1) / 2;
        if i < |xs| then (if (v - first - |q.matrix| - 1) % 2 == 0 then Set(val, l)(xs[i]) else i != k) else false
      else val(v)
  }

  lemma WitnessValues(q: Formula, xs: seq<int>, ys: seq<int>, ss: seq<int>, first: int, ren: map<int, int>,
                      k: nat, val: Valuation, l: int)
    requires Fresh(q, xs, ys, ss, first) && Pairs(xs, ys, ren) && k < |xs| && Abs(l) == xs[k]
    ensures var w := Witness(q, xs, ss, first, k, val, l);
            && (forall v :: v <= first ==> w(v) == val(v))
            && (forall i :: 0 <= i < |q.matrix| ==> Indicated(w, first, i) == Sat(Set(val, l), q.matrix[i]))
            && (forall i :: 0 <= i < |xs| ==> w(ys[i]) == Set(val, l)(xs[i]) && w(ss[i]) == (i != k))
            && (forall v :: v <= first ==> Copied(w, ren)(v) == Set(val, l)(v))
  {
    hide Sat, WellFormed, Copied, Set;
    forall i | 0 <= i < |xs|
      ensures var w := Witness(q, xs, ss, first, k, val, l); w(ys[i]) == Set(val, l)(xs[i]) && w(ss[i]) == (i != k)
    {
      WitnessAt(q, xs, ss, first, k, val, l, i);
    }
    WitnessCopied(q, xs, ys, ss, first, ren, k, val, l);
  }

  lemma WitnessCopied(q: Formula, xs: seq<int>, ys: seq<int>, ss: seq<int>, first: int, ren: map<int, int>,
                      k: nat, val: Valuation, l: int)
    requires Fresh(q, xs, ys, ss, first) && Pairs(xs, ys, ren) && k < |xs| && Abs(l) == xs[k]
    ensures forall v :: v <= first ==> Copied(Witness(q, xs, ss, first, k, val, l), ren)(v) == Set(val, l)(v)
  {
    hide Sat, WellFormed, Set, Copied, Witness;
    forall v | v <= first ensures Copied(Witness(q, xs, ss, first, k, val, l), ren)(v) == Set(val, l)(v) {
      if v in ren {
        WitnessRenamed(q, xs, ys, ss, first, ren, k, val, l, v);
      } else {
        WitnessKept(q, xs, ys, ss, first, ren, k, val, l, v);
      }
    }
  }

  lemma WitnessRenamed(q: Formula, xs: seq<int>, ys: seq<int>, ss: seq<int>, first: int, ren: map<int, int>,
                       k: nat, val: Valuation, l: int, v: int)
    requires Fresh(q, xs, ys, ss, first) && Pairs(xs, ys, ren) && k < |xs| && v in ren
    ensures Copied(Witness(q, xs, ss, first, k, val, l), ren)(v) == Set(val, l)(v)
  {
    hide Sat, WellFormed, Set, Witness;
    var i :| 0 <= i < |xs| && xs[i] == v;
    WitnessAt(q, xs, ss, first, k, val, l, i);
  }

  lemma WitnessKept(q: Formula, xs: seq<int>, ys: seq<int>, ss: seq<int>, first: int, ren: map<int, int>,
                    k: nat, val: Valuation, l: int, v: int)
    requires Fresh(q, xs, ys, ss, first) && Pairs(xs, ys, ren) && k < |xs| && Abs(l) == xs[k] && v <= first && v !in ren
    ensures Copied(Witness(q, xs, ss, first, k, val, l), ren)(v) == Set(val, l)(v)
  {
    hide Sat, WellFormed;
    assert xs[k] in ren;
  }

  lemma WitnessAt(q: Formula, xs: seq<int>, ss: seq<int>, first: int, k: nat, val: Valuation, l: int, i: nat)
    requires k < |xs| == |ss| && i < |xs|
    ensures Witness(q, xs, ss, first, k, val, l)(first + |q.matrix| + 1 + 2 * i) == Set(val, l)(xs[i])
    ensures Witness(q, xs, ss, first, k, val, l)(first + |q.matrix| + 2 + 2 * i) == (i != k)
  {
    hide Sat, Set;
    assert (2 * i) / 2 == i && (2 * i) % 2 == 0 && (2 * i + 1) / 2 == i && (2 * i + 1) % 2 == 1;
    assert first + |q.matrix| + 1 + 2 * i - first - |q.matrix| - 1 == 2 * i;
    assert first + |q.matrix| + 2 + 2 * i - first - |q.matrix| - 1 == 2 * i + 1;
  }

  /** A refuted query makes the literal unate. */
  lemma RefutedIsUnate(q: Formula, xs: seq<int>, ys: seq<int>, ss: seq<int>, first: int, ren: map<int, int>,
                       assumptions: seq<int>, k: nat, found: seq<int>, l: int)
    requires Fresh(q, xs, ys, ss, first) && Pairs(xs, ys, ren) && k < |xs| && Abs(l) == xs[k] && l != 0
    requires OverVars(found, q.deps.Keys) && Query(assumptions, ss, k, found, l, if l > 0 then ys[k] else -ys[k])
    requires forall val: Valuation :: !(AllSat(val, SearchFormula(q.matrix, xs, ys, ss, first, ren)) && AllTrue(val, assumptions))
    ensures Unate(q.matrix, found, l)
  {
    forall val: Valuation | AllSat(val, q.matrix) && AllTrue(val, found) ensures AllSat(Set(val, l), q.matrix) {
      if True(val, l) {
        SetSame(val, l, q.matrix);
      } else {
        WitnessModel(q, xs, ys, ss, first, ren, k, val, l);
        WitnessAssumed(q, xs, ys, ss, first, ren, assumptions, k, found, val, l);
      }
    }
  }

  /** The query of a literal that is unate has no model. */
  lemma UnateIsRefuted(q: Formula, xs: seq<int>, ys: seq<int>, ss: seq<int>, first: int, ren: map<int, int>,
                       assumptions: seq<int>, k: nat, found: seq<int>, l: int, val: Valuation)
    requires Fresh(q, xs, ys, ss, first) && Pairs(xs, ys, ren) && k < |xs| && Abs(l) == xs[k] && l != 0
    requires Query(assumptions, ss, k, found, l, if l > 0 then ys[k] else -ys[k])
    requires AllSat(val, SearchFormula(q.matrix, xs, ys, ss, first, ren)) && AllTrue(val, assumptions)
    ensures !Unate(q.matrix, found, l)
  {
    hide SearchFormula, Sat, Copied, Set, Query, OverVars;
    SearchMeans(q, xs, ys, ss, first, ren, val);
    QueryModel(q, xs, ys, ss, first, ren, assumptions, k, found, l, val);
    if AllSat(Set(val, l), q.matrix) {
      forall i | 0 <= i < |q.matrix| ensures Sat(Copied(val, ren), q.matrix[i]) {
        assert OverVars(q.matrix[i], q.universals + q.deps.Keys);
        SatAgrees(Set(val, l), Copied(val, ren), q.matrix[i], q.universals + q.deps.Keys);
      }
    }
  }

  /** In a model of the query the copy is the original with l true. */
  lemma QueryModel(q: Formula, xs: seq<int>, ys: seq<int>, ss: seq<int>, first: int, ren: map<int, int>,
                   assumptions: seq<int>, k: nat, found: seq<int>, l: int, val: Valuation)
    requires Fresh(q, xs, ys, ss, first) && Pairs(xs, ys, ren) && k < |xs| && Abs(l) == xs[k] && l != 0
    requires Query(assumptions, ss, k, found, l, if l > 0 then ys[k] else -ys[k]) && AllTrue(val, assumptions)
    requires forall i :: 0 <= i < |xs| && val(ss[i]) ==> val(xs[i]) == val(ys[i])
    ensures AllTrue(val, found) && forall v :: v in q.universals + q.deps.Keys ==> Copied(val, ren)(v) == Set(val, l)(v)
  {
    AllTrueIn(val, assumptions);
    AllTrueIn(val, found);
    FreshPositive(q, xs, ys, ss, first, ren);
    forall i | 0 <= i < |xs| ensures val(ys[i]) == Set(val, l)(xs[i]) {
      if i == k {
        assert True(val, if l > 0 then ys[k] else -ys[k]);
      } else {
        assert ss[i] in assumptions && True(val, ss[i]);
      }
    }
    forall v | v in q.universals + q.deps.Keys ensures Copied(val, ren)(v) == Set(val, l)(v) {
      if v in ren {
        var i :| 0 <= i < |xs| && xs[i] == v;
      } else {
        assert v != xs[k];
      }
    }
  }

  lemma SetSame(val: Valuation, l: int, f: seq<Clause>)
    requires True(val, l) && AllSat(val, f)
    ensures AllSat(Set(val, l), f)
  {
    forall i | 0 <= i < |f| ensures Sat(Set(val, l), f[i]) {
      assert Sat(val, f[i]);
      var k :| 0 <= k < |f[i]| && True(val, f[i][k]);
      assert True(Set(val, l), f[i][k]);
    }
  }

  /** If making l true breaks the matrix, the witness is a model of the search formula. */
  lemma WitnessModel(q: Formula, xs: seq<int>, ys: seq<int>, ss: seq<int>, first: int, ren: map<int, int>,
                     k: nat, val: Valuation, l: int)
    requires Fresh(q, xs, ys, ss, first) && Pairs(xs, ys, ren) && k < |xs| && Abs(l) == xs[k]
    requires AllSat(val, q.matrix)
    ensures AllSat(Set(val, l), q.matrix)
            || AllSat(Witness(q, xs, ss, first, k, val, l), SearchFormula(q.matrix, xs, ys, ss, first, ren))
  {
    hide Sat, SearchFormula, Witness, Copied;
    var w := Witness(q, xs, ss, first, k, val, l);
    WitnessValues(q, xs, ys, ss, first, ren, k, val, l);
    SearchMeans(q, xs, ys, ss, first, ren, w);
    WitnessClauses(q, ren, first, val, l, w);
    forall i | 0 <= i < |xs| && w(ss[i]) ensures w(xs[i]) == w(ys[i]) {
      assert xs[i] in xs && xs[i] != xs[k];
    }
  }

  lemma WitnessClauses(q: Formula, ren: map<int, int>, first: int, val: Valuation, l: int, w: Valuation)
    requires WellFormed(q) && forall v :: v in q.universals + q.deps.Keys ==> v <= first
    requires (forall v :: v <= first ==> w(v) == val(v)) && forall v :: v <= first ==> Copied(w, ren)(v) == Set(val, l)(v)
    ensures AllSat(w, q.matrix) <==> AllSat(val, q.matrix)
    ensures forall i :: 0 <= i < |q.matrix| ==> (Sat(Copied(w, ren), q.matrix[i]) <==> Sat(Set(val, l), q.matrix[i]))
  {
    hide Sat, Copied, Set;
    forall i | 0 <= i < |q.matrix|
      ensures Sat(w, q.matrix[i]) <==> Sat(val, q.matrix[i])
      ensures Sat(Copied(w, ren), q.matrix[i]) <==> Sat(Set(val, l), q.matrix[i])
    {
      SatAgrees(w, val, q.matrix[i], q.universals + q.deps.Keys);
      SatAgrees(Copied(w, ren), Set(val, l), q.matrix[i], q.universals + q.deps.Keys);
    }
  }

  lemma WitnessAssumed(q: Formula, xs: seq<int>, ys: seq<int>, ss: seq<int>, first: int, ren: map<int, int>,
                       assumptions: seq<int>, k: nat, found: seq<int>, val: Valuation, l: int)
    requires Fresh(q, xs, ys, ss, first) && Pairs(xs, ys, ren) && k < |xs| && Abs(l) == xs[k] && l != 0
    requires OverVars(found, q.deps.Keys) && Query(assumptions, ss, k, found, l, if l > 0 then ys[k] else -ys[k])
    requires AllTrue(val, found) && !True(val, l)
    ensures AllTrue(Witness(q, xs, ss, first, k, val, l), assumptions)
  {
    hide Witness, Copied;
    var w := Witness(q, xs, ss, first, k, val, l);
    WitnessValues(q, xs, ys, ss, first, ren, k, val, l);
    FreshPositive(q, xs, ys, ss, first, ren);
    AllTrueIn(val, found);
    forall i | 0 <= i < |assumptions| ensures True(w, assumptions[i]) {
      var a := assumptions[i];
      assert a in assumptions;
      if j :| 0 <= j < |ss| && j != k && a == ss[j] {
        assert w(ss[j]);
      } else if a in found {
        var j :| 0 <= j < |found| && found[j] == a;
        assert Abs(a) in q.deps.Keys && True(val, a);
      } else if a == -l {
        assert xs[k] in xs;
      } else {
        assert w(ys[k]) == Set(val, l)(xs[k]);
      }
    }
  }

  // ------------------------------------------------------- Skolem families

  /** The family with the found variables replaced by their constants. */
  ghost function Fixed(s: Family, found: seq<int>): Family {
    (e, u) => if e in found then true else if -e in found then false else s(e, u)
  }

  /** Each literal is unate once the earlier ones hold, for variables that are all different. */
  ghost predicate UnateChain(q: Formula, found: seq<int>) {
    && OverVars(found, q.deps.Keys) && (forall i, j :: 0 <= i < j < |found| ==> Abs(found[i]) != Abs(found[j]))
    && forall k :: 0 <= k < |found| ==> Unate(q.matrix, found[..k], found[k])
  }

  lemma FixedRespects(q: Formula, s: Family, found: seq<int>)
    requires Respects(q, s)
    ensures Respects(q, Fixed(s, found))
  {}

  /** Replacing all found variables by their constants leaves a model of the formula. */
  lemma {:induction false} FixedWins(q: Formula, s: Family, found: seq<int>)
    requires WellFormed(q) && Winning(q, s) && UnateChain(q, found)
    ensures Winning(q, Fixed(s, found))
    decreases |found|
  {
    if found == [] {
      FixedNone(q, s);
    } else {
      var n := |found| - 1;
      ChainPrefix(q, found);
      FixedWins(q, s, found[..n]);
      FixedRespects(q, s, found);
      forall u: set<int>, aux: Valuation | u <= q.universals ensures AllSat(Induced(q, Fixed(s, found), aux, u), q.matrix) {
        FixedStep(q, s, found, aux, u);
      }
    }
  }

  lemma ChainPrefix(q: Formula, found: seq<int>)
    requires UnateChain(q, found) && found != []
    ensures UnateChain(q, found[..|found| - 1])
  {
    hide Unate;
    var p := found[..|found| - 1];
    forall k | 0 <= k < |p| ensures Unate(q.matrix, p[..k], p[k]) {
      assert p[..k] == found[..k] && Unate(q.matrix, found[..k], found[k]);
    }
  }

  lemma FixedNone(q: Formula, s: Family)
    requires Winning(q, s)
    ensures Winning(q, Fixed(s, []))
  {
    FixedRespects(q, s, []);
    forall u: set<int>, aux: Valuation | u <= q.universals ensures AllSat(Induced(q, Fixed(s, []), aux, u), q.matrix) {
      SameAllSat(Induced(q, s, aux, u), Induced(q, Fixed(s, []), aux, u), q.matrix);
    }
  }

  lemma SameAllSat(v: Valuation, w: Valuation, f: seq<Clause>)
    requires AllSat(v, f) && forall x :: v(x) == w(x)
    ensures AllSat(w, f)
  {
    forall i | 0 <= i < |f| ensures Sat(w, f[i]) {
      assert Sat(v, f[i]);
      var k :| 0 <= k < |f[i]| && True(v, f[i][k]);
      assert True(w, f[i][k]);
    }
  }

  lemma FixedStep(q: Formula, s: Family, found: seq<int>, aux: Valuation, u: set<int>)
    requires WellFormed(q) && UnateChain(q, found) && found != [] && u <= q.universals
    requires Winning(q, Fixed(s, found[..|found| - 1]))
    ensures AllSat(Induced(q, Fixed(s, found), aux, u), q.matrix)
  {
    hide AllSat;
    var n := |found| - 1;
    var val := Induced(q, Fixed(s, found[..n]), aux, u);
    assert AllSat(val, q.matrix);
    FoundHold(q, s, found[..n], aux, u, found);
    assert Unate(q.matrix, found[..n], found[n]);
    assert AllSat(Set(val, found[n]), q.matrix);
    LastSet(q, s, found, aux, u);
    SameAllSat(Set(val, found[n]), Induced(q, Fixed(s, found), aux, u), q.matrix);
  }

  lemma NoOpposite(found: seq<int>, i: nat)
    requires i < |found| && found[i] != 0 && forall i, j :: 0 <= i < j < |found| ==> Abs(found[i]) != Abs(found[j])
    ensures -found[i] !in found
  {
    forall j | 0 <= j < |found| ensures found[j] != -found[i] {
      assert j < i || j == i || j > i;
    }
  }

  lemma FoundHold(q: Formula, s: Family, p: seq<int>, aux: Valuation, u: set<int>, found: seq<int>)
    requires WellFormed(q) && OverVars(found, q.deps.Keys) && p <= found
    requires forall i, j :: 0 <= i < j < |found| ==> Abs(found[i]) != Abs(found[j])
    ensures AllTrue(Induced(q, Fixed(s, p), aux, u), p)
  {
    forall i | 0 <= i < |p| ensures True(Induced(q, Fixed(s, p), aux, u), p[i]) {
      assert p[i] == found[i] && p[i] in p && Abs(p[i]) in q.deps.Keys;
      NoOpposite(found, i);
      assert forall l :: l in p ==> l in found;
    }
  }

  lemma LastSet(q: Formula, s: Family, found: seq<int>, aux: Valuation, u: set<int>)
    requires WellFormed(q) && OverVars(found, q.deps.Keys) && found != []
    requires forall i, j :: 0 <= i < j < |found| ==> Abs(found[i]) != Abs(found[j])
    ensures var n := |found| - 1;
            forall x :: Set(Induced(q, Fixed(s, found[..n]), aux, u), found[n])(x) == Induced(q, Fixed(s, found), aux, u)(x)
  {
    var n := |found| - 1;
    var p, l := found[..n], found[n];
    assert found == p + [l] && Abs(l) in q.deps.Keys;
    forall x ensures Set(Induced(q, Fixed(s, p), aux, u), l)(x) == Induced(q, Fixed(s, found), aux, u)(x) {
      if x == Abs(l) {
        assert l in found;
        NoOpposite(found, n);
      } else if x > 0 {
        assert x in found <==> x in p;
        assert -x in found <==> -x in p;
      }
    }
  }
}
