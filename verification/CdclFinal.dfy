/** What the final conflict holds: the decisions that reasons lead back to, each once. */
module CdclFinal {
  import opened Sat
  import opened CdclState
  import opened CdclWatches
  import opened CdclPropagate
  import opened CdclAnalyze
  import opened CdclUip

  /** A path of reasons leads from position a back to position k. */
  ghost predicate LedTo(s: State, a: nat, k: nat)
    decreases |s.trail| - k
  {
    k < |s.trail| && (k == a || exists i: nat :: Edge(s, i, k) && LedTo(s, a, i))
  }

  /** The same over positions from lo on, but for k itself. */
  ghost predicate LedThrough(s: State, a: nat, lo: nat, k: nat)
    decreases |s.trail| - k
  {
    k < |s.trail| && (k == a || exists i: nat :: lo <= i && Edge(s, i, k) && LedThrough(s, a, lo, i))
  }

  ghost predicate IsDecision(s: State, k: nat) {
    k < |s.trail| && Reason(s.vardata, s.trail[k].v) == NO_REASON
  }

  /** Negations of the decisions from position lo on that position a is led back to, the last first. */
  ghost function LedDecisions(s: State, a: nat, lo: nat): Clause
    decreases |s.trail| - lo
  {
    if lo >= |s.trail| then []
    else LedDecisions(s, a, lo + 1) + if IsDecision(s, lo) && LedTo(s, a, lo) then [s.trail[lo].Not()] else []
  }

  /** Exactly those decisions, and no variable twice. */
  lemma {:induction false} LedDecisionsIn(s: State, a: nat, lo: nat)
    requires TrailInv(s)
    ensures forall l :: l in LedDecisions(s, a, lo) <==>
              exists k: nat :: lo <= k < |s.trail| && IsDecision(s, k) && LedTo(s, a, k) && l == s.trail[k].Not()
    ensures DistinctVars(LedDecisions(s, a, lo))
    decreases |s.trail| - lo
  {
    hide LedTo, IsDecision;
    if lo < |s.trail| {
      var rest := LedDecisions(s, a, lo + 1);
      LedDecisionsIn(s, a, lo + 1);
      forall i | 0 <= i < |rest| ensures rest[i].v != s.trail[lo].v {
        assert rest[i] in rest;
        var k: nat :| lo + 1 <= k < |s.trail| && rest[i] == s.trail[k].Not();
      }
      forall l ensures l in LedDecisions(s, a, lo) <==>
        exists k: nat :: lo <= k < |s.trail| && IsDecision(s, k) && LedTo(s, a, k) && l == s.trail[k].Not()
      {
        OneMoreDecision(s, a, lo, l);
      }
    }
  }

  lemma OneMoreDecision(s: State, a: nat, lo: nat, l: Lit)
    requires lo < |s.trail|
    requires l in LedDecisions(s, a, lo + 1) <==>
               exists k: nat :: lo + 1 <= k < |s.trail| && IsDecision(s, k) && LedTo(s, a, k) && l == s.trail[k].Not()
    ensures l in LedDecisions(s, a, lo) <==>
              exists k: nat :: lo <= k < |s.trail| && IsDecision(s, k) && LedTo(s, a, k) && l == s.trail[k].Not()
  {
    hide LedTo, IsDecision;
    if k: nat :| lo <= k < |s.trail| && IsDecision(s, k) && LedTo(s, a, k) && l == s.trail[k].Not() {
      if k > lo { assert l in LedDecisions(s, a, lo + 1); }
    }
    if l in LedDecisions(s, a, lo + 1) {
      var k: nat :| lo + 1 <= k < |s.trail| && IsDecision(s, k) && LedTo(s, a, k) && l == s.trail[k].Not();
    }
  }

  // ------------------------------------------------------- the loop

  /** Before position hi, the marks above level 0 are what a is led back to over positions from hi on. */
  ghost predicate Followed(s: State, a: nat, seen: seq<bool>, hi: nat) {
    |s.trailLim| > 0 && forall k: nat :: s.trailLim[0] <= k < hi && k < |s.trail| ==> FollowedAt(s, a, seen, hi, k)
  }

  ghost predicate FollowedAt(s: State, a: nat, seen: seq<bool>, hi: nat, k: nat)
    requires k < |s.trail|
  {
    Seen(seen, s.trail[k].v) <==> LedThrough(s, a, hi, k)
  }

  lemma {:induction false} ThroughUpper(s: State, a: nat, lo: nat, k: nat)
    requires lo <= k + 1
    ensures LedThrough(s, a, lo, k) <==> LedTo(s, a, k)
    decreases |s.trail| - k
  {
    if k < |s.trail| {
      forall i: nat | Edge(s, i, k) ensures LedThrough(s, a, lo, i) <==> LedTo(s, a, i) { ThroughUpper(s, a, lo, i); }
    }
  }

  /** A position that a is not led back to, or without reason, may be passed over. */
  lemma {:induction false} ThroughSkip(s: State, a: nat, x: nat, k: nat)
    requires !LedTo(s, a, x) || IsDecision(s, x)
    ensures k != x ==> (LedThrough(s, a, x, k) <==> LedThrough(s, a, x + 1, k))
    decreases |s.trail| - k
  {
    if k < |s.trail| && k != x {
      forall i: nat | Edge(s, i, k) && i != x ensures LedThrough(s, a, x, i) <==> LedThrough(s, a, x + 1, i) {
        ThroughSkip(s, a, x, i);
      }
      ThroughUpper(s, a, x, x);
    }
  }

  /** Expanding x adds what its reason holds. */
  lemma ThroughExpand(s: State, a: nat, x: nat, k: nat)
    requires LedTo(s, a, x) && k < x
    ensures LedThrough(s, a, x, k) <==> LedThrough(s, a, x + 1, k) || Edge(s, x, k)
  {
    ThroughUpper(s, a, x, x);
    forall i: nat | x < i && Edge(s, i, k) ensures LedThrough(s, a, x, i) <==> LedThrough(s, a, x + 1, i) {
      ThroughUpper(s, a, x, i);
      ThroughUpper(s, a, x + 1, i);
    }
  }

  lemma FollowStart(s: State, p: Lit, a: nat, seen: seq<bool>)
    requires TrailInv(s) && a < |s.trail| && s.trail[a] == p && p.v < |seen| && |s.trailLim| > 0 && forall v :: !Seen(seen, v)
    ensures Followed(s, a, seen[p.v := true], |s.trail|)
  {
    forall k: nat | s.trailLim[0] <= k < |s.trail| ensures Seen(seen[p.v := true], s.trail[k].v) <==> k == a {
      if k != a { assert s.trail[k].v != s.trail[a].v && !Seen(seen, s.trail[k].v); }
    }
  }

  lemma FollowMark(s: State, a: nat, seen: seq<bool>, hi: nat)
    requires Followed(s, a, seen, hi) && s.trailLim[0] < hi <= |s.trail|
    ensures Seen(seen, s.trail[hi - 1].v) <==> LedTo(s, a, hi - 1)
  {
    ThroughUpper(s, a, hi, hi - 1);
    assert FollowedAt(s, a, seen, hi, hi - 1);
  }

  lemma NoDecision(s: State, a: nat, x: nat)
    requires x < |s.trail| && (!IsDecision(s, x) || !LedTo(s, a, x))
    ensures LedDecisions(s, a, x) == LedDecisions(s, a, x + 1)
  {}

  lemma OtherVariables(s: State, x: nat)
    requires TrailInv(s) && x < |s.trail|
    ensures s.trail[x].v < |s.vardata| && forall k: nat :: k < x ==> s.trail[k].v != s.trail[x].v
  {}

  lemma FollowSkip(s: State, a: nat, seen: seq<bool>, hi: nat)
    requires Followed(s, a, seen, hi) && s.trailLim[0] < hi <= |s.trail| && !Seen(seen, s.trail[hi - 1].v)
    ensures Followed(s, a, seen, hi - 1) && LedDecisions(s, a, hi - 1) == LedDecisions(s, a, hi)
  {
    FollowMark(s, a, seen, hi);
    NoDecision(s, a, hi - 1);
    hide LedThrough, LedTo, LedDecisions;
    var x: nat, after := hi - 1, seen;
    forall k: nat | s.trailLim[0] <= k < x ensures FollowedAt(s, a, after, x, k) {
      assert FollowedAt(s, a, seen, hi, k);
      ThroughSkip(s, a, hi - 1, k);
    }
  }

  lemma FollowDecision(s: State, a: nat, seen: seq<bool>, hi: nat)
    requires TrailInv(s) && Followed(s, a, seen, hi) && s.trailLim[0] < hi <= |s.trail| && |seen| == |s.vardata|
    requires Seen(seen, s.trail[hi - 1].v) && Reason(s.vardata, s.trail[hi - 1].v) == NO_REASON
    ensures Followed(s, a, seen[s.trail[hi - 1].v := false], hi - 1)
    ensures LedDecisions(s, a, hi - 1) == LedDecisions(s, a, hi) + [s.trail[hi - 1].Not()]
  {
    FollowMark(s, a, seen, hi);
    hide LedThrough, LedTo, TrailInv, FollowedAt;
    OtherVariables(s, hi - 1);
    var x: nat, after := hi - 1, seen[s.trail[hi - 1].v := false];
    forall k: nat | s.trailLim[0] <= k < x ensures FollowedAt(s, a, after, x, k) {
      assert FollowedAt(s, a, seen, hi, k);
      DecisionAt(s, a, seen, hi - 1, k);
    }
  }

  lemma DecisionAt(s: State, a: nat, seen: seq<bool>, x: nat, k: nat)
    requires k < x < |s.trail| && FollowedAt(s, a, seen, x + 1, k) && IsDecision(s, x)
    requires s.trail[x].v < |seen| && s.trail[k].v != s.trail[x].v
    ensures FollowedAt(s, a, seen[s.trail[x].v := false], x, k)
  {
    hide LedThrough;
    ThroughSkip(s, a, x, k);
  }

  lemma VariableBound(s: State, x: nat)
    requires TrailInv(s) && x < |s.trail|
    ensures s.trail[x].v < |s.vardata|
  {}

  lemma FollowReason(s: State, a: nat, seen: seq<bool>, marks: seq<bool>, hi: nat, cr: nat, j0: nat)
    requires TrailInv(s) && Followed(s, a, seen, hi) && s.trailLim[0] < hi <= |s.trail| && |marks| == |s.vardata|
    requires Seen(seen, s.trail[hi - 1].v) && cr < |s.ca| && cr == Reason(s.vardata, s.trail[hi - 1].v) && j0 <= |s.ca[cr]|
    requires AddedUpTo(s, seen, marks, s.ca[cr], j0, |s.ca[cr]|) && (j0 == 0 || (j0 == 1 && s.ca[cr][0] == s.trail[hi - 1]))
    ensures Followed(s, a, marks[s.trail[hi - 1].v := false], hi - 1)
    ensures LedDecisions(s, a, hi - 1) == LedDecisions(s, a, hi)
  {
    hide LedThrough, LedTo, TrailInv, AddedUpTo, LedDecisions, Edge, FollowedAt, Seen;
    FollowMark(s, a, seen, hi);
    NoDecision(s, a, hi - 1);
    VariableBound(s, hi - 1);
    var x: nat, after := hi - 1, marks[s.trail[hi - 1].v := false];
    forall k: nat | s.trailLim[0] <= k < x ensures FollowedAt(s, a, after, x, k) {
      assert FollowedAt(s, a, seen, hi, k);
      ReasonAtPosition(s, a, seen, marks, hi - 1, k, cr, j0);
    }
  }

  lemma ReasonAtPosition(s: State, a: nat, seen: seq<bool>, marks: seq<bool>, x: nat, k: nat, cr: nat, j0: nat)
    requires TrailInv(s) && |s.trailLim| > 0 && s.trailLim[0] <= k < x < |s.trail| && |marks| == |s.vardata|
    requires cr < |s.ca| && cr == Reason(s.vardata, s.trail[x].v) && j0 <= |s.ca[cr]|
    requires AddedUpTo(s, seen, marks, s.ca[cr], j0, |s.ca[cr]|) && (j0 == 0 || (j0 == 1 && s.ca[cr][0] == s.trail[x]))
    requires FollowedAt(s, a, seen, x + 1, k) && LedTo(s, a, x)
    ensures s.trail[x].v < |marks| && FollowedAt(s, a, marks[s.trail[x].v := false], x, k)
  {
    hide LedThrough, LedTo, TrailInv, AddedUpTo, Edge;
    ThroughExpand(s, a, x, k);
    ReasonMarks(s, seen, marks, x, k, cr, j0);
  }

  lemma ReasonMarks(s: State, seen: seq<bool>, marks: seq<bool>, x: nat, k: nat, cr: nat, j0: nat)
    requires TrailInv(s) && |s.trailLim| > 0 && s.trailLim[0] <= k < x < |s.trail| && |marks| == |s.vardata|
    requires cr < |s.ca| && cr == Reason(s.vardata, s.trail[x].v) && j0 <= |s.ca[cr]|
    requires AddedUpTo(s, seen, marks, s.ca[cr], j0, |s.ca[cr]|) && (j0 == 0 || (j0 == 1 && s.ca[cr][0] == s.trail[x]))
    ensures s.trail[x].v < |marks|
    ensures Seen(marks[s.trail[x].v := false], s.trail[k].v) <==> Seen(seen, s.trail[k].v) || Edge(s, x, k)
  {
    assert s.trail[k].v != s.trail[x].v && s.trail[x].v < |s.vardata|;
    assert InLevel(s, k, Level(s.vardata, s.trail[k].v));
    hide TrailInv;
    SliceVars(s.ca[cr], j0, s.trail[x], s.trail[k].v);
  }

  lemma SliceVars(c: Clause, j0: nat, x: Lit, v: nat)
    requires j0 <= |c| && (j0 == 0 || (j0 == 1 && c[0] == x)) && v != x.v
    ensures VarIn(c[j0..|c|], v) <==> VarIn(c, v)
  {
    if VarIn(c, v) {
      var k :| 0 <= k < |c| && c[k].v == v;
      assert c[j0..|c|][k - j0].v == v;
    }
    if VarIn(c[j0..|c|], v) {
      var k :| 0 <= k < |c[j0..|c|]| && c[j0..|c|][k].v == v;
      assert c[k + j0].v == v;
    }
  }

  /** The clause of the final analysis, for the literal at position a. */
  ghost predicate FinalClause(s: State, p: Lit, out: Clause) {
    exists a: nat :: a < |s.trail| && s.trail[a] == p && out == [p] + if |s.trailLim| == 0 then [] else LedDecisions(s, a, s.trailLim[0])
  }

  /** The clause blames the assumptions that make one of them false. */
  ghost predicate Blames(s: State, a: seq<Lit>, out: Clause) {
    exists p: Lit :: p.Not() in a && Value(s.assigns, p) == LTrue && FinalClause(s, p, out)
  }

  lemma FinalClauseMade(s: State, p: Lit, a: nat, out: Clause)
    requires a < |s.trail| && s.trail[a] == p && |s.trailLim| > 0 && out == [p] + LedDecisions(s, a, s.trailLim[0])
    ensures FinalClause(s, p, out)
  {}

  lemma NothingLed(s: State, p: Lit, a: nat)
    requires a < |s.trail| && s.trail[a] == p
    ensures |s.trailLim| == 0 ==> FinalClause(s, p, [p])
    ensures [p] + LedDecisions(s, a, |s.trail|) == [p]
  {}

  /** Which assumptions are blamed: those, and only those, that reasons lead back to from p. */
  lemma FinalBlames(s: State, p: Lit, out: Clause)
    requires TrailInv(s) && FinalClause(s, p, out) && |s.trailLim| > 0
    ensures out != [] && out[0] == p && DistinctVars(out[1..])
    ensures exists a: nat :: a < |s.trail| && s.trail[a] == p && forall l :: l in out[1..] <==>
              exists k: nat :: s.trailLim[0] <= k < |s.trail| && IsDecision(s, k) && LedTo(s, a, k) && l == s.trail[k].Not()
  {
    var a: nat :| a < |s.trail| && s.trail[a] == p && out == [p] + LedDecisions(s, a, s.trailLim[0]);
    LedDecisionsIn(s, a, s.trailLim[0]);
    assert out[1..] == LedDecisions(s, a, s.trailLim[0]);
  }

  lemma TruePosition(s: State, p: Lit) returns (a: nat)
    requires TrailInv(s) && Value(s.assigns, p) == LTrue
    ensures a < |s.trail| && s.trail[a] == p
  {
    assert p in s.trail;
    a :| a < |s.trail| && s.trail[a] == p;
  }
}
