/** Dependencies kept by the resolution-path scheme: the universals that resolution paths connect to an existential. */
module DependencySchemes {
  import opened Basics
  import opened DependencyTables
  import opened Dqbf
  import opened ResolutionPaths

  /** The variables to consider for u: itself and the existentials that depend on it. */
  ghost function Scope(original: map<int, seq<int>>, u: int): set<int> {
    (set e | e in original && u in original[e]) + {u}
  }

  /** Paths from u do not use its negation, and the other way round. */
  ghost predicate Reached(matrix: seq<Clause>, original: map<int, seq<int>>, u: int, sign: int, x: int) {
    Reaches(matrix, Scope(original, u), {-sign * u}, sign * u, x)
  }

  /** e is met with one sign on a path from u and with the other on a path from the negation of u. */
  ghost predicate Connected(matrix: seq<Clause>, original: map<int, seq<int>>, u: int, e: int) {
    || (Reached(matrix, original, u, 1, e) && Reached(matrix, original, u, -1, -e))
    || (Reached(matrix, original, u, 1, -e) && Reached(matrix, original, u, -1, e))
  }

  ghost predicate Kept(matrix: seq<Clause>, original: map<int, seq<int>>, u: int, e: int) {
    e in original && u in original[e] && Connected(matrix, original, u, e)
  }

  /** Distinct variables up to max, existentials apart from universals. */
  ghost predicate GoodPrefix(original: map<int, seq<int>>, universals: seq<int>, max: nat) {
    && Distinct(universals)
    && (forall i :: 0 <= i < |universals| ==> 1 <= universals[i] <= max && universals[i] !in original)
    && (forall e :: e in original ==> 1 <= e <= max && forall i :: 0 <= i < |original[e]| ==> original[e][i] in universals)
  }

  // ------------------------------------------------------- indices

  /** The clauses that contain a literal. */
  method GetContainingClauses(matrix: seq<Clause>) returns (containing: map<int, seq<nat>>)
    ensures Indexed(matrix, containing)
  {
    hide Indexed;
    containing := map[];
    NoClauses(matrix);
    for i := 0 to |matrix|
      invariant IndexedUpTo(matrix, containing, i, 0)
    {
      for k := 0 to |matrix[i]|
        invariant IndexedUpTo(matrix, containing, i, k)
      {
        var l := matrix[i][k];
        AddOccurrence(matrix, containing, i, k);
        containing := containing[l := Occurrences(containing, l) + [i]];
      }
      NextClause(matrix, containing, i);
    }
    AllClauses(matrix, containing);
  }

  /** Clauses before i are entered, and the first k literals of clause i. */
  ghost predicate Entered(matrix: seq<Clause>, i: nat, k: nat, l: int, j: int) {
    0 <= j < |matrix| && (if j < i then l in matrix[j] else j == i && k <= |matrix[i]| && l in matrix[i][..k])
  }

  ghost predicate IndexedUpTo(matrix: seq<Clause>, containing: map<int, seq<nat>>, i: nat, k: nat) {
    && (forall l, a :: 0 <= a < |Occurrences(containing, l)| ==> Entered(matrix, i, k, l, Occurrences(containing, l)[a]))
    && (forall l, j :: Entered(matrix, i, k, l, j) ==> Has(Occurrences(containing, l), j))
  }

  lemma NoClauses(matrix: seq<Clause>)
    ensures IndexedUpTo(matrix, map[], 0, 0)
  {}

  lemma AddOccurrence(matrix: seq<Clause>, containing: map<int, seq<nat>>, i: nat, k: nat)
    requires IndexedUpTo(matrix, containing, i, k) && i < |matrix| && k < |matrix[i]|
    ensures var l := matrix[i][k];
            IndexedUpTo(matrix, containing[l := Occurrences(containing, l) + [i]], i, k + 1)
  {
    var l := matrix[i][k];
    var c := containing[l := Occurrences(containing, l) + [i]];
    assert matrix[i][..k + 1] == matrix[i][..k] + [l];
    forall m, a | 0 <= a < |Occurrences(c, m)| ensures Entered(matrix, i, k + 1, m, Occurrences(c, m)[a]) {
      if m == l && a == |Occurrences(containing, l)| {
        assert Occurrences(c, m)[a] == i;
      } else {
        assert Occurrences(c, m)[a] == Occurrences(containing, m)[a];
        assert Entered(matrix, i, k, m, Occurrences(containing, m)[a]);
      }
    }
    forall m, j | Entered(matrix, i, k + 1, m, j) ensures Has(Occurrences(c, m), j) {
      if Entered(matrix, i, k, m, j) {
        var a :| 0 <= a < |Occurrences(containing, m)| && Occurrences(containing, m)[a] == j;
        assert Occurrences(c, m)[a] == j;
      } else {
        assert m == l && j == i && Occurrences(c, l)[|Occurrences(containing, l)|] == i;
      }
    }
  }

  lemma NextClause(matrix: seq<Clause>, containing: map<int, seq<nat>>, i: nat)
    requires i < |matrix| && IndexedUpTo(matrix, containing, i, |matrix[i]|)
    ensures IndexedUpTo(matrix, containing, i + 1, 0)
  {
    assert matrix[i][..|matrix[i]|] == matrix[i];
    forall l, j ensures Entered(matrix, i, |matrix[i]|, l, j) <==> Entered(matrix, i + 1, 0, l, j) {}
  }

  lemma AllClauses(matrix: seq<Clause>, containing: map<int, seq<nat>>)
    requires IndexedUpTo(matrix, containing, |matrix|, 0)
    ensures Indexed(matrix, containing)
  {
    forall l, j | 0 <= j < |matrix| && l in matrix[j] ensures Has(Occurrences(containing, l), j) {
      assert Entered(matrix, |matrix|, 0, l, j);
    }
    forall l, a | 0 <= a < |Occurrences(containing, l)|
      ensures Occurrences(containing, l)[a] < |matrix| && l in matrix[Occurrences(containing, l)[a]]
    {
      assert Entered(matrix, |matrix|, 0, l, Occurrences(containing, l)[a]);
    }
  }

  function Dependents(inverse: map<int, seq<int>>, u: int): seq<int> {
    if u in inverse then inverse[u] else []
  }

  /** The existentials among the first ones that depend on u. */
  ghost function DependingOn(original: map<int, seq<int>>, es: seq<int>, u: int): set<int> {
    set e | e in es && e in original && u in original[e]
  }

  /** Existentials by universal; `order` is the order in which the hash table is walked. */
  method ComputeInverseDependencies(original: map<int, seq<int>>, order: seq<int>) returns (inverse: map<int, seq<int>>)
    requires forall i :: 0 <= i < |order| ==> order[i] in original
    ensures forall u :: Elements(Dependents(inverse, u)) == DependingOn(original, order, u)
  {
    inverse := map[];
    for i := 0 to |order|
      invariant forall u :: Elements(Dependents(inverse, u)) == DependingOn(original, order[..i], u)
    {
      var e := order[i];
      ghost var before := inverse;
      assert order[..i + 1] == order[..i] + [e];
      for k := 0 to |original[e]|
        invariant forall u :: Elements(Dependents(inverse, u))
                              == Elements(Dependents(before, u)) + (if u in original[e][..k] then {e} else {})
      {
        var u := original[e][k];
        ElementsAppended(Dependents(inverse, u), e);
        assert original[e][..k + 1] == original[e][..k] + [u];
        inverse := inverse[u := Dependents(inverse, u) + [e]];
      }
      assert original[e][..|original[e]|] == original[e];
      forall u ensures DependingOn(original, order[..i + 1], u)
                       == DependingOn(original, order[..i], u) + (if u in original[e] then {e} else {}) {}
    }
    assert order[..|order|] == order;
  }

  // ------------------------------------------------------- preparing a search

  ghost function LiteralsOf(s: set<int>, max: nat): set<int> {
    set l | l in Literals(max) && Abs(l) in s
  }

  lemma ConsiderOne(consider: seq<bool>, v: int, b: bool)
    requires 1 <= v <= |consider|
    ensures Considered(consider[v - 1 := b]) == if b then Considered(consider) + {v} else Considered(consider) - {v}
  {
    var c := consider[v - 1 := b];
    forall w ensures Considers(c, w) <==> if w == v then b else Considers(consider, w) {}
  }

  /** Neither literal of e is marked any more. */
  lemma UnmarkBoth(marked: seq<bool>, max: nat, e: int)
    requires |marked| == 2 * max && 1 <= e <= max
    ensures Marked(marked[e - 1 := false][e + max - 1 := false], max) == Marked(marked, max) - LiteralsOf({e}, max)
  {
    MarkOne(marked, max, e, false);
    MarkOne(marked[e - 1 := false], max, -e, false);
    hide Marked;
    forall l ensures l in LiteralsOf({e}, max) <==> l == e || l == -e {}
  }

  lemma MoreLiterals(a: set<int>, e: int, max: nat)
    ensures LiteralsOf(a + {e}, max) == LiteralsOf(a, max) + LiteralsOf({e}, max)
    ensures LiteralsOf({}, max) == {}
  {}

  lemma PrefixElements(s: seq<int>, i: nat)
    requires i < |s|
    ensures Elements(s[..i + 1]) == Elements(s[..i]) + {s[i]} && Elements(s[..0]) == {} && s[..|s|] == s
  {
    assert s[..i + 1] == s[..i] + [s[i]];
    ElementsAppended(s[..i], s[i]);
  }

  method SetUpSearchVectors(universal: int, max: nat, toConsider: array<bool>, positive: array<bool>, negative: array<bool>,
                            dependents: seq<int>)
    requires toConsider.Length == max && positive.Length == negative.Length == 2 * max
    requires toConsider != positive && toConsider != negative && positive != negative
    requires 1 <= universal <= max && forall i :: 0 <= i < |dependents| ==> 1 <= dependents[i] <= max
    modifies toConsider, positive, negative
    ensures Considered(toConsider[..]) == old(Considered(toConsider[..])) + Elements(dependents) + {universal}
    ensures Marked(positive[..], max) == old(Marked(positive[..], max)) - LiteralsOf(Elements(dependents), max) + {-universal}
    ensures Marked(negative[..], max) == old(Marked(negative[..], max)) - LiteralsOf(Elements(dependents), max) + {universal}
  {
    hide Considered, Marked, LiteralsOf, Elements;
    MoreLiterals({}, 0, max);
    NoElements(dependents);
    for i := 0 to |dependents|
      invariant Considered(toConsider[..]) == old(Considered(toConsider[..])) + Elements(dependents[..i])
      invariant Marked(positive[..], max) == old(Marked(positive[..], max)) - LiteralsOf(Elements(dependents[..i]), max)
      invariant Marked(negative[..], max) == old(Marked(negative[..], max)) - LiteralsOf(Elements(dependents[..i]), max)
    {
      PrefixElements(dependents, i);
      MoreLiterals(Elements(dependents[..i]), dependents[i], max);
      ResetOne(dependents[i], max, toConsider, positive, negative);
    }
    assert dependents[..|dependents|] == dependents;
    MarkOne(negative[..], max, universal, true);
    MarkOne(positive[..], max, -universal, true);
    ConsiderOne(toConsider[..], universal, true);
    negative[universal - 1] := true;
    positive[universal + max - 1] := true;
    toConsider[universal - 1] := true;
  }

  lemma NoElements(s: seq<int>)
    ensures Elements(s[..0]) == {}
  {}

  method ResetOne(e: int, max: nat, toConsider: array<bool>, positive: array<bool>, negative: array<bool>)
    requires toConsider.Length == max && positive.Length == negative.Length == 2 * max && 1 <= e <= max
    requires toConsider != positive && toConsider != negative && positive != negative
    modifies toConsider, positive, negative
    ensures Considered(toConsider[..]) == old(Considered(toConsider[..])) + {e}
    ensures Marked(positive[..], max) == old(Marked(positive[..], max)) - LiteralsOf({e}, max)
    ensures Marked(negative[..], max) == old(Marked(negative[..], max)) - LiteralsOf({e}, max)
  {
    hide Considered, Marked, LiteralsOf;
    UnmarkBoth(positive[..], max, e);
    UnmarkBoth(negative[..], max, e);
    ConsiderOne(toConsider[..], e, true);
    positive[e - 1] := false;
    positive[e + max - 1] := false;
    negative[e - 1] := false;
    negative[e + max - 1] := false;
    toConsider[e - 1] := true;
  }

  method RevertSearchVectors(universal: int, toConsider: array<bool>, dependents: seq<int>)
    requires 1 <= universal <= toConsider.Length && forall i :: 0 <= i < |dependents| ==> 1 <= dependents[i] <= toConsider.Length
    modifies toConsider
    ensures Considered(toConsider[..]) == old(Considered(toConsider[..])) - Elements(dependents) - {universal}
  {
    hide Considered, Elements;
    NoElements(dependents);
    for i := 0 to |dependents|
      invariant Considered(toConsider[..]) == old(Considered(toConsider[..])) - Elements(dependents[..i])
    {
      PrefixElements(dependents, i);
      ConsiderOne(toConsider[..], dependents[i], false);
      toConsider[dependents[i] - 1] := false;
    }
    assert dependents[..|dependents|] == dependents;
    ConsiderOne(toConsider[..], universal, false);
    toConsider[universal - 1] := false;
  }

  // ------------------------------------------------------- the scheme

  /** Blocked literals of variables that are not considered make no difference. */
  lemma BlockedSame(matrix: seq<Clause>, consider: set<int>, a: set<int>, b: set<int>, l: int, x: int)
    requires forall m :: Abs(m) in consider ==> (m in a <==> m in b)
    ensures Reaches(matrix, consider, a, l, x) <==> Reaches(matrix, consider, b, l, x)
  {
    hide Resolves;
    if Reaches(matrix, consider, a, l, x) {
      var p :| ResolutionPath(matrix, consider, a, p) && p[0] == l && p[|p| - 1] == x;
      assert ResolutionPath(matrix, consider, b, p);
    }
    if Reaches(matrix, consider, b, l, x) {
      var p :| ResolutionPath(matrix, consider, b, p) && p[0] == l && p[|p| - 1] == x;
      assert ResolutionPath(matrix, consider, a, p);
    }
  }

  /** After the search for u the marks of its dependents say what is reached. */
  lemma MarksSay(matrix: seq<Clause>, original: map<int, seq<int>>, max: nat, u: int, sign: int, before: set<int>,
                 after: set<int>, x: int)
    requires sign == 1 || sign == -1
    requires Searched(matrix, Scope(original, u), sign * u, before, after) && Abs(x) in Scope(original, u) && Abs(x) != Abs(u)
    requires forall m :: Abs(m) in Scope(original, u) ==> (m in before <==> m == -sign * u)
    ensures x in after <==> Reached(matrix, original, u, sign, x)
  {
    SearchedIsReach(matrix, Scope(original, u), sign * u, before, after, x);
    BlockedSame(matrix, Scope(original, u), before, {-sign * u}, sign * u, x);
  }

  /** The universals at the first i positions that the scheme keeps for e. */
  ghost function KeptAmong(matrix: seq<Clause>, original: map<int, seq<int>>, us: seq<int>, e: int): set<int> {
    set u | u in us && Kept(matrix, original, u, e)
  }

  /** No literal of the variables is marked. */
  ghost predicate NoneMarked(marked: set<int>, us: seq<int>) {
    forall i, l :: 0 <= i < |us| && l in marked ==> Abs(l) != us[i]
  }

  /** What holds of the marks before the search for universal i. */
  lemma MarksBefore(original: map<int, seq<int>>, universals: seq<int>, max: nat, i: nat, sign: int,
                    old_: set<int>, dependents: set<int>, before: set<int>)
    requires GoodPrefix(original, universals, max) && i < |universals| && (sign == 1 || sign == -1)
    requires old_ <= Literals(max) && NoneMarked(old_, universals[i..])
    requires dependents == (set e | e in original && universals[i] in original[e])
    requires before == old_ - LiteralsOf(dependents, max) + {-sign * universals[i]}
    ensures forall m :: Abs(m) in Scope(original, universals[i]) ==> (m in before <==> m == -sign * universals[i])
  {
    var u := universals[i];
    assert universals[i..][0] == u;
    forall m | Abs(m) in Scope(original, u) ensures m in before <==> m == -sign * u {
      if Abs(m) in dependents {
        assert m in old_ ==> m in LiteralsOf(dependents, max);
      }
    }
  }

  /** The search leaves the literals of the remaining universals unmarked. */
  lemma MarksAfter(matrix: seq<Clause>, original: map<int, seq<int>>, universals: seq<int>, max: nat, i: nat, l: int,
                   old_: set<int>, before: set<int>, after: set<int>)
    requires GoodPrefix(original, universals, max) && i < |universals| && Abs(l) == universals[i]
    requires NoneMarked(old_, universals[i..]) && before <= old_ + {-l}
    requires Searched(matrix, Scope(original, universals[i]), l, before, after)
    ensures NoneMarked(after, universals[i + 1..])
  {
    var rest := universals[i + 1..];
    forall k, m | 0 <= k < |rest| && m in after ensures Abs(m) != rest[k] {
      var u := rest[k];
      assert u == universals[i + 1 + k] == universals[i..][k + 1];
      SearchedIsReach(matrix, Scope(original, universals[i]), l, before, after, m);
      if m !in before {
        ReachedInScope(matrix, Scope(original, universals[i]), before, l, m);
      }
    }
  }

  lemma ReachedInScope(matrix: seq<Clause>, consider: set<int>, blocked: set<int>, l: int, x: int)
    requires Reaches(matrix, consider, blocked, l, x)
    ensures Abs(x) in consider
  {}

  lemma PrefixFacts(original: map<int, seq<int>>, universals: seq<int>, max: nat, i: nat)
    requires GoodPrefix(original, universals, max) && i < |universals|
    ensures 1 <= universals[i] <= max && universals[i] !in original
    ensures forall e :: e in original ==> 1 <= e <= max
  {}

  lemma DependentsFacts(original: map<int, seq<int>>, order: seq<int>, dependents: seq<int>, u: int, max: nat)
    requires Elements(dependents) == DependingOn(original, order, u) && (forall e :: e in order <==> e in original)
    requires forall e :: e in original ==> 1 <= e <= max
    ensures Elements(dependents) == (set e | e in original && u in original[e])
    ensures {} + Elements(dependents) + {u} == Scope(original, u)
    ensures forall i :: 0 <= i < |dependents| ==>
              dependents[i] in original && u in original[dependents[i]] && 1 <= dependents[i] <= max
  {
    var s := set e | e in original && u in original[e];
    forall e ensures e in DependingOn(original, order, u) <==> e in s {
      if e in s { assert e in order; }
    }
    forall i | 0 <= i < |dependents|
      ensures dependents[i] in original && u in original[dependents[i]] && 1 <= dependents[i] <= max
    {
      assert dependents[i] in Elements(dependents);
    }
  }

  /** One universal: both searches, then the dependents that are met with both signs. */
  method PruneFor(matrix: seq<Clause>, max: nat, original: map<int, seq<int>>, universals: seq<int>, ghost order: seq<int>,
                  i: nat, inverse: map<int, seq<int>>, containing: map<int, seq<nat>>, toConsider: array<bool>,
                  positive: array<bool>, negative: array<bool>, before: map<int, seq<int>>) returns (pruned: map<int, seq<int>>)
    requires GoodMatrix(matrix, max) && GoodPrefix(original, universals, max) && i < |universals|
    requires Indexed(matrix, containing) && before.Keys == original.Keys && (forall e :: e in order <==> e in original)
    requires Elements(Dependents(inverse, universals[i])) == DependingOn(original, order, universals[i])
    requires toConsider.Length == max && positive.Length == negative.Length == 2 * max
    requires toConsider != positive && toConsider != negative && positive != negative && Considered(toConsider[..]) == {}
    requires NoneMarked(Marked(positive[..], max), universals[i..]) && NoneMarked(Marked(negative[..], max), universals[i..])
    requires forall e :: e in original ==> Elements(before[e]) == KeptAmong(matrix, original, universals[..i], e)
    modifies toConsider, positive, negative
    ensures pruned.Keys == original.Keys && Considered(toConsider[..]) == {}
    ensures NoneMarked(Marked(positive[..], max), universals[i + 1..])
    ensures NoneMarked(Marked(negative[..], max), universals[i + 1..])
    ensures forall e :: e in original ==> Elements(pruned[e]) == KeptAmong(matrix, original, universals[..i + 1], e)
  {
    hide GoodMatrix, GoodPrefix, Indexed, KeptAmong, Considered, Marked, NoneMarked, Elements, Searched, Scope, LiteralsOf,
         DependingOn, Literals;
    var u := universals[i];
    var dependents := Dependents(inverse, u);
    PrefixFacts(original, universals, max, i);
    DependentsFacts(original, order, dependents, u, max);
    ghost var p0, n0 := Marked(positive[..], max), Marked(negative[..], max);
    MarkedAreLiterals(positive[..], max);
    MarkedAreLiterals(negative[..], max);
    SetUpSearchVectors(u, max, toConsider, positive, negative, dependents);
    ghost var p1, n1 := Marked(positive[..], max), Marked(negative[..], max);
    MarksBefore(original, universals, max, i, 1, p0, Elements(dependents), p1);
    MarksBefore(original, universals, max, i, -1, n0, Elements(dependents), n1);
    SearchPaths(matrix, max, u, toConsider, positive, containing);
    SearchPaths(matrix, max, -u, toConsider, negative, containing);
    ghost var p2, n2 := Marked(positive[..], max), Marked(negative[..], max);
    MarksAfter(matrix, original, universals, max, i, u, p0, p1, p2);
    MarksAfter(matrix, original, universals, max, i, -u, n0, n1, n2);
    RevertSearchVectors(u, toConsider, dependents);
    assert Elements(dependents) + {u} - Elements(dependents) - {u} == {};
    forall e | e in Elements(dependents)
      ensures MarksTell(matrix, original, u, e, p2, n2)
    {
      MarksTellFor(matrix, original, max, u, e, Elements(dependents), p1, p2, n1, n2);
    }
    pruned := CollectKept(matrix, max, original, universals, i, dependents, positive, negative, before);
  }

  lemma MarkedAreLiterals(marked: seq<bool>, max: nat)
    requires |marked| == 2 * max
    ensures Marked(marked, max) <= Literals(max)
  {}

  /** The marks of both literals of e say what is reached. */
  ghost predicate MarksTell(matrix: seq<Clause>, original: map<int, seq<int>>, u: int, e: int, p: set<int>, n: set<int>) {
    && (e in p <==> Reached(matrix, original, u, 1, e)) && (-e in p <==> Reached(matrix, original, u, 1, -e))
    && (e in n <==> Reached(matrix, original, u, -1, e)) && (-e in n <==> Reached(matrix, original, u, -1, -e))
  }

  lemma MarksTellFor(matrix: seq<Clause>, original: map<int, seq<int>>, max: nat, u: int, e: int, dependents: set<int>,
                     p1: set<int>, p2: set<int>, n1: set<int>, n2: set<int>)
    requires e in dependents && dependents == (set d | d in original && u in original[d])
    requires u > 0 && u !in original && e > 0
    requires Searched(matrix, Scope(original, u), u, p1, p2) && Searched(matrix, Scope(original, u), -u, n1, n2)
    requires forall m :: Abs(m) in Scope(original, u) ==> (m in p1 <==> m == -u)
    requires forall m :: Abs(m) in Scope(original, u) ==> (m in n1 <==> m == u)
    ensures MarksTell(matrix, original, u, e, p2, n2)
  {
    hide Searched, Reached;
    assert Abs(e) == e && Abs(-e) == e && e in Scope(original, u) && e != u;
    MarksSay(matrix, original, max, u, 1, p1, p2, e);
    MarksSay(matrix, original, max, u, 1, p1, p2, -e);
    MarksSay(matrix, original, max, u, -1, n1, n2, e);
    MarksSay(matrix, original, max, u, -1, n1, n2, -e);
  }

  method CollectKept(matrix: seq<Clause>, max: nat, original: map<int, seq<int>>, universals: seq<int>, i: nat,
                     dependents: seq<int>, positive: array<bool>, negative: array<bool>, before: map<int, seq<int>>)
      returns (pruned: map<int, seq<int>>)
    requires positive.Length == negative.Length == 2 * max && i < |universals| && before.Keys == original.Keys
    requires Elements(dependents) == (set e | e in original && universals[i] in original[e])
    requires forall k :: 0 <= k < |dependents| ==>
               dependents[k] in original && universals[i] in original[dependents[k]] && 1 <= dependents[k] <= max
    requires forall e :: e in Elements(dependents) ==>
               MarksTell(matrix, original, universals[i], e, Marked(positive[..], max), Marked(negative[..], max))
    requires forall e :: e in original ==> Elements(before[e]) == KeptAmong(matrix, original, universals[..i], e)
    ensures pruned.Keys == original.Keys
    ensures forall e :: e in original ==> Elements(pruned[e]) == KeptAmong(matrix, original, universals[..i + 1], e)
  {
    hide KeptAmong, Marked, MarksTell, Elements;
    var u := universals[i];
    pruned := before;
    for k := 0 to |dependents|
      invariant pruned.Keys == original.Keys
      invariant CollectedUpTo(matrix, original, u, before, pruned, dependents[..k])
    {
      var e := dependents[k];
      MarkAt(positive[..], max, e);
      MarkAt(negative[..], max, e);
      IsElement(dependents, k);
      ConnectedByMarks(matrix, original, u, e, Marked(positive[..], max), Marked(negative[..], max));
      CollectNext(matrix, original, u, before, pruned, dependents, k);
      if (positive[e - 1] && negative[e + max - 1]) || (positive[e + max - 1] && negative[e - 1]) {
        pruned := pruned[e := pruned[e] + [u]];
      }
    }
    assert dependents[..|dependents|] == dependents;
    AllCollected(matrix, original, universals, i, before, pruned, dependents);
  }

  ghost predicate CollectedUpTo(matrix: seq<Clause>, original: map<int, seq<int>>, u: int, before: map<int, seq<int>>,
                                pruned: map<int, seq<int>>, done: seq<int>) {
    && before.Keys == pruned.Keys
    && forall e :: e in before ==>
         Elements(pruned[e]) == Elements(before[e]) + (if e in done && Connected(matrix, original, u, e) then {u} else {})
  }

  lemma CollectNext(matrix: seq<Clause>, original: map<int, seq<int>>, u: int, before: map<int, seq<int>>,
                    pruned: map<int, seq<int>>, dependents: seq<int>, k: nat)
    requires k < |dependents| && dependents[k] in before && CollectedUpTo(matrix, original, u, before, pruned, dependents[..k])
    ensures var e := dependents[k];
            CollectedUpTo(matrix, original, u, before,
                          if Connected(matrix, original, u, e) then pruned[e := pruned[e] + [u]] else pruned, dependents[..k + 1])
  {
    hide Connected;
    var e := dependents[k];
    assert forall d :: d in dependents[..k + 1] <==> d in dependents[..k] || d == e;
    ElementsAppended(pruned[e], u);
  }

  lemma MarkAt(marked: seq<bool>, max: nat, e: int)
    requires |marked| == 2 * max && 1 <= e <= max
    ensures marked[e - 1] <==> e in Marked(marked, max)
    ensures marked[e + max - 1] <==> -e in Marked(marked, max)
  {
    assert e in Literals(max) && -e in Literals(max);
  }

  lemma IsElement(s: seq<int>, k: nat)
    requires k < |s|
    ensures s[k] in Elements(s)
  {}

  lemma ConnectedByMarks(matrix: seq<Clause>, original: map<int, seq<int>>, u: int, e: int, p: set<int>, n: set<int>)
    requires MarksTell(matrix, original, u, e, p, n)
    ensures Connected(matrix, original, u, e) <==> (e in p && -e in n) || (-e in p && e in n)
  {
    hide Reached;
  }

  lemma AllCollected(matrix: seq<Clause>, original: map<int, seq<int>>, universals: seq<int>, i: nat,
                     before: map<int, seq<int>>, pruned: map<int, seq<int>>, dependents: seq<int>)
    requires i < |universals| && before.Keys == original.Keys
    requires CollectedUpTo(matrix, original, universals[i], before, pruned, dependents)
    requires Elements(dependents) == (set e | e in original && universals[i] in original[e])
    requires forall e :: e in original ==> Elements(before[e]) == KeptAmong(matrix, original, universals[..i], e)
    ensures forall e :: e in original ==> Elements(pruned[e]) == KeptAmong(matrix, original, universals[..i + 1], e)
  {
    hide Connected;
    var u := universals[i];
    assert universals[..i + 1] == universals[..i] + [u];
    forall e | e in original ensures Elements(pruned[e]) == KeptAmong(matrix, original, universals[..i + 1], e) {
      assert e in dependents <==> e in Elements(dependents);
      assert Kept(matrix, original, u, e) <==> e in dependents && Connected(matrix, original, u, e);
      assert forall v :: v in universals[..i + 1] <==> v in universals[..i] || v == u;
    }
  }

  method ApplyDependencyScheme(matrix: seq<Clause>, max: nat, original: map<int, seq<int>>, universals: seq<int>,
                               order: seq<int>) returns (pruned: map<int, seq<int>>)
    requires GoodMatrix(matrix, max) && GoodPrefix(original, universals, max) && Elements(order) == original.Keys
    ensures pruned.Keys == original.Keys
    ensures forall e :: e in original ==> Elements(pruned[e]) == KeptAmong(matrix, original, universals, e)
  {
    hide GoodMatrix, GoodPrefix, Indexed, KeptAmong, Considered, Marked, NoneMarked, Elements;
    OrderKeys(original, order);
    var inverse := ComputeInverseDependencies(original, order);
    var containing := GetContainingClauses(matrix);
    var positive, negative := new bool[2 * max](_ => false), new bool[2 * max](_ => false);
    var toConsider := new bool[max](_ => false);
    pruned := map e | e in original :: [];
    NothingYet(matrix, original, universals, max, pruned, positive[..], negative[..], toConsider[..]);
    for i := 0 to |universals|
      invariant pruned.Keys == original.Keys && Considered(toConsider[..]) == {}
      invariant toConsider.Length == max && positive.Length == negative.Length == 2 * max
      invariant NoneMarked(Marked(positive[..], max), universals[i..]) && NoneMarked(Marked(negative[..], max), universals[i..])
      invariant forall e :: e in original ==> Elements(pruned[e]) == KeptAmong(matrix, original, universals[..i], e)
    {
      pruned := PruneFor(matrix, max, original, universals, order, i, inverse, containing, toConsider, positive, negative, pruned);
    }
    assert universals[..|universals|] == universals;
  }

  lemma OrderKeys(original: map<int, seq<int>>, order: seq<int>)
    requires Elements(order) == original.Keys
    ensures forall i :: 0 <= i < |order| ==> order[i] in original
    ensures forall e :: e in order <==> e in original
  {
    forall i | 0 <= i < |order| ensures order[i] in original { assert order[i] in Elements(order); }
    forall e | e in original ensures e in order { assert e in Elements(order); }
  }

  lemma NothingYet(matrix: seq<Clause>, original: map<int, seq<int>>, universals: seq<int>, max: nat, pruned: map<int, seq<int>>,
                   positive: seq<bool>, negative: seq<bool>, toConsider: seq<bool>)
    requires pruned == (map e | e in original :: []) && |positive| == |negative| == 2 * max && |toConsider| == max
    requires (forall i :: 0 <= i < 2 * max ==> !positive[i] && !negative[i]) && forall i :: 0 <= i < max ==> !toConsider[i]
    ensures Considered(toConsider) == {} && Marked(positive, max) == {} && Marked(negative, max) == {}
    ensures NoneMarked(Marked(positive, max), universals[0..]) && NoneMarked(Marked(negative, max), universals[0..])
    ensures forall e :: e in original ==> Elements(pruned[e]) == KeptAmong(matrix, original, universals[..0], e)
  {
    assert forall l :: l !in Marked(positive, max) && l !in Marked(negative, max);
    assert forall v :: v !in Considered(toConsider);
  }
}
