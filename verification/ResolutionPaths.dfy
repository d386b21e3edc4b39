/** Literals that resolution paths connect, and the depth-first search that marks them. */
module ResolutionPaths {
  import opened Dqbf

  /** Variables up to max. */
  ghost predicate Literal(l: int, max: nat) { 1 <= Abs(l) <= max }

  ghost predicate GoodMatrix(matrix: seq<Clause>, max: nat) {
    forall i, k :: 0 <= i < |matrix| && 0 <= k < |matrix[i]| ==> Literal(matrix[i][k], max)
  }

  /** A clause with the negation of l and with m, another literal. */
  ghost predicate Resolves(matrix: seq<Clause>, l: int, m: int) {
    exists i :: 0 <= i < |matrix| && -l in matrix[i] && m in matrix[i] && m != -l
  }

  /** A path over variables to consider that avoids the blocked literals. */
  ghost predicate ResolutionPath(matrix: seq<Clause>, consider: set<int>, blocked: set<int>, p: seq<int>) {
    && |p| > 0
    && (forall i :: 0 <= i < |p| ==> Abs(p[i]) in consider && p[i] !in blocked)
    && forall i :: 0 < i < |p| ==> Resolves(matrix, p[i - 1], p[i])
  }

  ghost predicate Reaches(matrix: seq<Clause>, consider: set<int>, blocked: set<int>, l: int, m: int) {
    exists p :: ResolutionPath(matrix, consider, blocked, p) && p[0] == l && p[|p| - 1] == m
  }

  // ------------------------------------------------------- marks

  function Index(l: int, max: nat): int { (if l < 0 then -l + max else l) - 1 }

  ghost function Literals(max: nat): set<int> {
    set l: int | -(max as int) <= l <= max && Literal(l, max)
  }

  ghost function Marked(marked: seq<bool>, max: nat): set<int>
    requires |marked| == 2 * max
  {
    set l | l in Literals(max) && marked[Index(l, max)]
  }

  predicate Considers(consider: seq<bool>, v: int) { 1 <= v <= |consider| && consider[v - 1] }

  ghost function Considered(consider: seq<bool>): set<int> {
    set v | 1 <= v <= |consider| && Considers(consider, v)
  }

  ghost function Unmarked(marked: seq<bool>, max: nat): set<int>
    requires |marked| == 2 * max
  {
    Literals(max) - Marked(marked, max)
  }

  lemma MarkOne(marked: seq<bool>, max: nat, l: int, b: bool)
    requires |marked| == 2 * max && Literal(l, max)
    ensures 0 <= Index(l, max) < 2 * max
    ensures Marked(marked[Index(l, max) := b], max) == if b then Marked(marked, max) + {l} else Marked(marked, max) - {l}
  {
    assert l in Literals(max);
    forall m | m in Literals(max) && m != l ensures Index(m, max) != Index(l, max) {}
  }

  lemma FewerUnmarked(marked: seq<bool>, max: nat, l: int)
    requires |marked| == 2 * max && Literal(l, max) && l !in Marked(marked, max)
    ensures 0 <= Index(l, max) < 2 * max
    ensures |Unmarked(marked[Index(l, max) := true], max)| < |Unmarked(marked, max)|
  {
    MarkOne(marked, max, l, true);
    var a, b := Unmarked(marked[Index(l, max) := true], max), Unmarked(marked, max);
    assert l in b && a == b - {l};
  }

  lemma MoreMarked(a: seq<bool>, b: seq<bool>, max: nat)
    requires |a| == |b| == 2 * max && Marked(a, max) <= Marked(b, max)
    ensures |Unmarked(b, max)| <= |Unmarked(a, max)|
  {
    var x, y := Unmarked(b, max), Unmarked(a, max);
    assert x <= y && y == x + (y - x);
  }

  // ------------------------------------------------------- the search

  /** Clause indices by literal. */
  ghost predicate Indexed(matrix: seq<Clause>, containing: map<int, seq<nat>>) {
    && (forall l, a :: 0 <= a < |Occurrences(containing, l)| ==>
          Occurrences(containing, l)[a] < |matrix| && l in matrix[Occurrences(containing, l)[a]])
    && (forall l, i :: 0 <= i < |matrix| && l in matrix[i] ==> Has(Occurrences(containing, l), i))
  }

  ghost predicate Has(s: seq<nat>, i: int) {
    exists a :: 0 <= a < |s| && s[a] == i
  }

  function Occurrences(containing: map<int, seq<nat>>, l: int): seq<nat> {
    if l in containing then containing[l] else []
  }

  /** Everything new is reached around the old marks, and its successors are marked. */
  ghost predicate Searched(matrix: seq<Clause>, consider: set<int>, l: int, before: set<int>, after: set<int>) {
    && before <= after && (Abs(l) in consider ==> l in after)
    && (forall x :: x in after && x !in before ==> Reaches(matrix, consider, before, l, x))
    && ClosedFor(matrix, consider, before, after)
  }

  /** The successors of what is new are marked. */
  ghost predicate ClosedFor(matrix: seq<Clause>, consider: set<int>, before: set<int>, after: set<int>) {
    forall x, y :: x in after && x !in before && Resolves(matrix, x, y) && Abs(y) in consider ==> y in after
  }

  /** The search marks exactly the literals that can be reached around what was marked before. */
  lemma SearchedIsReach(matrix: seq<Clause>, consider: set<int>, l: int, before: set<int>, after: set<int>, x: int)
    requires Searched(matrix, consider, l, before, after)
    ensures x in after <==> x in before || Reaches(matrix, consider, before, l, x)
  {
    if Reaches(matrix, consider, before, l, x) {
      var p :| ResolutionPath(matrix, consider, before, p) && p[0] == l && p[|p| - 1] == x;
      PathMarked(matrix, consider, l, before, after, p, |p| - 1);
    }
  }

  lemma {:induction false} PathMarked(matrix: seq<Clause>, consider: set<int>, l: int, before: set<int>, after: set<int>,
                                      p: seq<int>, i: nat)
    requires Searched(matrix, consider, l, before, after) && ResolutionPath(matrix, consider, before, p) && p[0] == l && i < |p|
    ensures p[i] in after
  {
    if i > 0 {
      PathMarked(matrix, consider, l, before, after, p, i - 1);
      assert Resolves(matrix, p[i - 1], p[i]);
    }
  }

  // ------------------------------------------------------- one literal

  /** While the clauses of l are walked over: l is marked, `done` are the successors visited. */
  ghost predicate Visiting(matrix: seq<Clause>, consider: set<int>, l: int, before: set<int>, now: set<int>, done: set<int>) {
    && before + {l} <= now
    && (forall x :: x in now && x !in before ==> Reaches(matrix, consider, before, l, x))
    && ClosedFor(matrix, consider, before + {l}, now)
    && forall y :: y in done && Abs(y) in consider ==> y in now
  }

  lemma VisitStart(matrix: seq<Clause>, consider: set<int>, l: int, before: set<int>)
    requires Abs(l) in consider && l !in before
    ensures Visiting(matrix, consider, l, before, before + {l}, {})
  {
    assert ResolutionPath(matrix, consider, before, [l]);
  }

  lemma VisitNext(matrix: seq<Clause>, consider: set<int>, l: int, before: set<int>, now: set<int>, done: set<int>,
                  m: int, after: set<int>)
    requires Visiting(matrix, consider, l, before, now, done) && Abs(l) in consider && l !in before
    requires Resolves(matrix, l, m) && Searched(matrix, consider, m, now, after)
    ensures Visiting(matrix, consider, l, before, after, done + {m})
  {
    forall x | x in after && x !in before ensures Reaches(matrix, consider, before, l, x) {
      if x !in now {
        assert Reaches(matrix, consider, now, m, x);
        ReachThrough(matrix, consider, before, now, l, m, x);
      }
    }
    forall x, y | x in after && x !in before + {l} && Resolves(matrix, x, y) && Abs(y) in consider ensures y in after {
      if x in now { assert y in now; }
    }
  }

  lemma ReachThrough(matrix: seq<Clause>, consider: set<int>, before: set<int>, now: set<int>, l: int, m: int, x: int)
    requires before <= now && Abs(l) in consider && l !in before && Resolves(matrix, l, m) && Reaches(matrix, consider, now, m, x)
    ensures Reaches(matrix, consider, before, l, x)
  {
    var p :| ResolutionPath(matrix, consider, now, p) && p[0] == m && p[|p| - 1] == x;
    var r := [l] + p;
    forall i | 0 < i < |r| ensures Resolves(matrix, r[i - 1], r[i]) {
      if i > 1 { assert r[i - 1] == p[i - 2] && r[i] == p[i - 1]; }
    }
    assert ResolutionPath(matrix, consider, before, r) && r[|r| - 1] == x;
  }

  lemma VisitEnd(matrix: seq<Clause>, consider: set<int>, l: int, before: set<int>, now: set<int>, done: set<int>)
    requires Visiting(matrix, consider, l, before, now, done) && forall m :: Resolves(matrix, l, m) ==> m in done
    ensures Searched(matrix, consider, l, before, now)
  {
    hide Resolves, Reaches;
  }

  lemma SearchNothing(matrix: seq<Clause>, consider: set<int>, l: int, before: set<int>)
    requires Abs(l) !in consider || l in before
    ensures Searched(matrix, consider, l, before, before)
  {}

  method SearchPaths(matrix: seq<Clause>, max: nat, l: int, toConsider: array<bool>, marked: array<bool>,
                     containing: map<int, seq<nat>>)
    requires Literal(l, max) && GoodMatrix(matrix, max) && Indexed(matrix, containing)
    requires toConsider.Length == max && marked.Length == 2 * max && toConsider != marked
    modifies marked
    ensures Searched(matrix, Considered(toConsider[..]), l, old(Marked(marked[..], max)), Marked(marked[..], max))
    decreases |Unmarked(marked[..], max)|, 1
  {
    hide Searched, Marked, Unmarked, Considered, Indexed, GoodMatrix, Visiting;
    ghost var consider, before := Considered(toConsider[..]), Marked(marked[..], max);
    IndexFacts(toConsider[..], marked[..], max, l);
    if toConsider[Abs(l) - 1] && !marked[Index(l, max)] {
      FewerUnmarked(marked[..], max, l);
      MarkOne(marked[..], max, l, true);
      marked[Index(l, max)] := true;
      VisitStart(matrix, consider, l, before);
      assert marked[..] == old(marked[..])[Index(l, max) := true];
      SearchClauses(matrix, max, l, toConsider, marked, containing, before);
    } else {
      SearchNothing(matrix, consider, l, before);
    }
  }

  /** The successors of a marked literal, clause by clause. */
  method SearchClauses(matrix: seq<Clause>, max: nat, l: int, toConsider: array<bool>, marked: array<bool>,
                       containing: map<int, seq<nat>>, ghost before: set<int>)
    requires Literal(l, max) && GoodMatrix(matrix, max) && Indexed(matrix, containing)
    requires toConsider.Length == max && marked.Length == 2 * max && toConsider != marked
    requires Visiting(matrix, Considered(toConsider[..]), l, before, Marked(marked[..], max), {})
    requires Abs(l) in Considered(toConsider[..]) && l !in before
    modifies marked
    ensures Searched(matrix, Considered(toConsider[..]), l, before, Marked(marked[..], max))
    ensures old(Marked(marked[..], max)) <= Marked(marked[..], max)
    decreases |Unmarked(marked[..], max)|, 2
  {
    hide Searched, Marked, Unmarked, Considered, Indexed, GoodMatrix, Visiting, Resolves;
    ghost var consider, start, done := Considered(toConsider[..]), marked[..], {};
    var clauses := Occurrences(containing, -l);
    for a := 0 to |clauses|
      invariant toConsider[..] == old(toConsider[..]) && marked.Length == 2 * max
      invariant Visiting(matrix, consider, l, before, Marked(marked[..], max), done)
      invariant Marked(start, max) <= Marked(marked[..], max)
      invariant forall b :: 0 <= b < a ==> AllDone(matrix, clauses[b], l, done)
    {
      OccursIn(matrix, containing, -l, a);
      var clause := matrix[clauses[a]];
      ghost var done0 := done;
      for k := 0 to |clause|
        invariant toConsider[..] == old(toConsider[..]) && marked.Length == 2 * max
        invariant Visiting(matrix, consider, l, before, Marked(marked[..], max), done)
        invariant Marked(start, max) <= Marked(marked[..], max)
        invariant done0 <= done && forall j :: 0 <= j < k && clause[j] != -l ==> clause[j] in done
      {
        var m := clause[k];
        if m != -l {
          GoodLiteral(matrix, max, clauses[a], k);
          StepBy(matrix, l, m, clauses[a], k);
          MoreMarked(start, marked[..], max);
          ghost var now := marked[..];
          SearchPaths(matrix, max, m, toConsider, marked, containing);
          VisitNext(matrix, consider, l, before, Marked(now, max), done, m, Marked(marked[..], max));
          SearchedGrows(matrix, consider, m, Marked(now, max), Marked(marked[..], max));
          done := done + {m};
        }
      }
      ClauseDone(matrix, clauses[a], l, done);
      StaysDone(matrix, clauses, a, l, done0, done);
    }
    StepsDone(matrix, containing, l, done);
    VisitEnd(matrix, consider, l, before, Marked(marked[..], max), done);
  }

  ghost predicate ClausesDone(matrix: seq<Clause>, occurrences: seq<nat>, l: int, done: set<int>) {
    forall b :: 0 <= b < |occurrences| ==> AllDone(matrix, occurrences[b], l, done)
  }

  ghost predicate AllDone(matrix: seq<Clause>, i: nat, l: int, done: set<int>) {
    i < |matrix| && forall k :: 0 <= k < |matrix[i]| && matrix[i][k] != -l ==> matrix[i][k] in done
  }

  lemma OccursIn(matrix: seq<Clause>, containing: map<int, seq<nat>>, l: int, a: nat)
    requires Indexed(matrix, containing) && a < |Occurrences(containing, l)|
    ensures Occurrences(containing, l)[a] < |matrix| && l in matrix[Occurrences(containing, l)[a]]
  {}

  lemma GoodLiteral(matrix: seq<Clause>, max: nat, i: nat, k: nat)
    requires GoodMatrix(matrix, max) && i < |matrix| && k < |matrix[i]|
    ensures Literal(matrix[i][k], max)
  {}

  lemma StepBy(matrix: seq<Clause>, l: int, m: int, i: nat, k: nat)
    requires i < |matrix| && -l in matrix[i] && k < |matrix[i]| && matrix[i][k] == m != -l
    ensures Resolves(matrix, l, m)
  {}

  lemma SearchedGrows(matrix: seq<Clause>, consider: set<int>, l: int, before: set<int>, after: set<int>)
    requires Searched(matrix, consider, l, before, after)
    ensures before <= after
  {}

  lemma ClauseDone(matrix: seq<Clause>, i: nat, l: int, done: set<int>)
    requires i < |matrix| && forall k :: 0 <= k < |matrix[i]| && matrix[i][k] != -l ==> matrix[i][k] in done
    ensures AllDone(matrix, i, l, done)
  {}

  lemma StaysDone(matrix: seq<Clause>, clauses: seq<nat>, a: nat, l: int, done0: set<int>, done: set<int>)
    requires a <= |clauses| && done0 <= done && forall b :: 0 <= b < a ==> AllDone(matrix, clauses[b], l, done0)
    ensures forall b :: 0 <= b < a ==> AllDone(matrix, clauses[b], l, done)
  {}

  lemma StepsDone(matrix: seq<Clause>, containing: map<int, seq<nat>>, l: int, done: set<int>)
    requires Indexed(matrix, containing)
    requires ClausesDone(matrix, Occurrences(containing, -l), l, done)
    ensures forall m :: Resolves(matrix, l, m) ==> m in done
  {
    forall m | Resolves(matrix, l, m) ensures m in done {
      var i: nat :| i < |matrix| && -l in matrix[i] && m in matrix[i] && m != -l;
      assert Has(Occurrences(containing, -l), i);
      var b :| 0 <= b < |Occurrences(containing, -l)| && Occurrences(containing, -l)[b] == i;
      assert AllDone(matrix, i, l, done);
      var k :| 0 <= k < |matrix[i]| && matrix[i][k] == m;
    }
  }

  lemma IndexFacts(consider: seq<bool>, marked: seq<bool>, max: nat, l: int)
    requires Literal(l, max) && |consider| == max && |marked| == 2 * max
    ensures 0 <= Abs(l) - 1 < max && 0 <= Index(l, max) < 2 * max
    ensures consider[Abs(l) - 1] <==> Abs(l) in Considered(consider)
    ensures marked[Index(l, max)] <==> l in Marked(marked, max)
  {}
}
