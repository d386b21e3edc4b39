/** Which literals minimisation drops: said by the implication graph alone, in no particular order. */
module CdclRedundant {
  import opened Sat
  import opened CdclState
  import opened CdclWatches
  import opened CdclPropagate
  import opened CdclAnalyze
  import opened CdclMinimize
  import opened CdclUip
  import opened CdclSearch

  /** trail[i] follows from the variables vs and the facts, by reasons whose variables all lie on the levels given. */
  ghost predicate Removable(s: State, vs: set<nat>, levels: set<nat>, i: nat)
    decreases i
  {
    && i < |s.trail| && Reason(s.vardata, s.trail[i].v) != NO_REASON
    && forall k: nat :: Edge(s, i, k) && Counts(s, k) && s.trail[k].v !in vs ==>
         Level(s.vardata, s.trail[k].v) % 32 in levels && Removable(s, vs, levels, k)
  }

  /** The same by one reason. */
  ghost predicate Direct(s: State, vs: set<nat>, i: nat) {
    && i < |s.trail| && Reason(s.vardata, s.trail[i].v) != NO_REASON
    && forall k: nat :: Edge(s, i, k) && Counts(s, k) ==> s.trail[k].v in vs
  }

  /** The levels of vs, by their remainder modulo 32. */
  ghost function Slots(s: State, vs: set<nat>): set<nat> {
    set v | v in vs :: Level(s.vardata, v) % 32
  }

  /** v can be dropped from a clause over vs: by a search in mode 2, by one reason in mode 1, not at all otherwise. */
  ghost predicate Superfluous(s: State, mode: int, vs: set<nat>, v: nat) {
    exists i: nat :: i < |s.trail| && s.trail[i].v == v && SuperfluousAt(s, mode, vs, i)
  }

  ghost predicate SuperfluousAt(s: State, mode: int, vs: set<nat>, i: nat) {
    if mode == 2 then Removable(s, vs, Slots(s, vs), i) else mode == 1 && Direct(s, vs, i)
  }

  ghost function Thinned(s: State, mode: int, vs: set<nat>): set<nat> {
    set v | v in vs && !Superfluous(s, mode, vs, v)
  }

  /** The variables of vs that stay when binary clauses with the literal a are resolved with. */
  ghost function Unresolved(s: State, a: Lit, vs: set<nat>): set<nat> {
    set v | v in vs && !Resolvable(s, a, v)
  }

  ghost function LevelsOf(s: State, vs: set<nat>): set<nat> {
    set v | v in vs :: Level(s.vardata, v)
  }

  /** Resolution with binary clauses is tried on clauses of few levels. */
  ghost function Resolved(s: State, a: Lit, vs: set<nat>, lbdLimit: nat): set<nat> {
    if |LevelsOf(s, {a.v} + vs)| <= lbdLimit then Unresolved(s, a, vs) else vs
  }

  /** The clause learnt from a conflict: the first unique implication point, and what is left of the part
      below it after both minimisations. */
  ghost predicate LearntFrom(s: State, confl: nat, mode: int, sizeLimit: nat, lbdLimit: nat, c: Clause) {
    exists p: Lit, vs: set<nat> :: IsFirstUip(s, confl, p, vs) && LeftOf(s, p, Thinned(s, mode, vs), sizeLimit, lbdLimit, c)
  }

  ghost predicate LeftOf(s: State, p: Lit, vs: set<nat>, sizeLimit: nat, lbdLimit: nat, c: Clause) {
    && |c| >= 1 && c[0] == p.Not() && DistinctVars(c)
    && Vars(c[1..]) == if 1 + |vs| <= sizeLimit then Resolved(s, p.Not(), vs, lbdLimit) else vs
  }

  /** t is s after a return to level bt, with the learnt clause c asserting its first literal. */
  ghost predicate AfterLearning(s: State, c: Clause, bt: nat, t: State) {
    && |c| >= 1 && bt < |s.trailLim| && s.trailLim[bt] <= |s.trail|
    && var r := Cancel(s, bt);
       && c[0].v < |r.assigns| == |r.vardata|
       && if |c| == 1 then t == Enqueue(r, c[0], NO_REASON)
          else
            && (forall k :: 0 <= k < 2 ==> c[k].Not() in r.watches && c[k].Not() in r.watchesBin)
            && t == Enqueue(AttachNew(r, c), c[0], |s.ca|)
  }

  /** t is what learning from the conflict leaves of s, up to the order of literals within clauses. */
  ghost predicate Learns(s: State, confl: nat, mode: int, sizeLimit: nat, lbdLimit: nat, t: State) {
    exists u: State, c: Clause, bt: nat ::
      && Reordered(s, u) && LearntFrom(s, confl, mode, sizeLimit, lbdLimit, c) && Asserting(u, c, bt)
      && AfterLearning(u, c, bt, t)
  }

  /** Propagation from s ends in a conflict, and t is what learning from it leaves. */
  ghost predicate LearnsFromConflict(s: State, mode: int, sizeLimit: nat, lbdLimit: nat, t: State) {
    exists m: State, confl: nat :: Extends(s, m) && ConflictClause(m, confl) && Learns(m, confl, mode, sizeLimit, lbdLimit, t)
  }

  // ------------------------------------------------------- the marks

  /** All of vs is marked, and in mode 2 also variables on its levels. */
  ghost predicate MarksFor(s: State, mode: int, vs: set<nat>, seen: seq<bool>) {
    && (forall v :: v in vs ==> Seen(seen, v))
    && forall v :: Seen(seen, v) && v !in vs ==> mode == 2 && Level(s.vardata, v) % 32 in Slots(s, vs)
  }

  ghost predicate RemovableVar(s: State, vs: set<nat>, v: nat) {
    exists i: nat :: i < |s.trail| && s.trail[i].v == v && Removable(s, vs, Slots(s, vs), i)
  }

  ghost predicate AllRemovable(s: State, vs: set<nat>, work: seq<Lit>) {
    forall k :: 0 <= k < |work| ==> RemovableVar(s, vs, work[k].v)
  }

  /** Justified marks outside of `kept` are removable. */
  lemma {:induction false} JustifiedRemovable(s: State, vs: set<nat>, seen: seq<bool>, kept: set<nat>, i: nat)
    requires TrailInv(s) && MarksJustified(s, seen, kept, []) && kept <= vs && MarksFor(s, 2, vs, seen)
    requires i < |s.trail| && Seen(seen, s.trail[i].v) && s.trail[i].v !in kept
    ensures Removable(s, vs, Slots(s, vs), i)
    decreases i
  {
    hide Slots, TrailLevels, TrailReasons, ClausesOk, QueueOk;
    assert Justified(s, seen, s.trail[i].v);
    forall k: nat | Edge(s, i, k) && Counts(s, k) && s.trail[k].v !in vs
      ensures Level(s.vardata, s.trail[k].v) % 32 in Slots(s, vs) && Removable(s, vs, Slots(s, vs), k)
    {
      assert s.trail[k].v != s.trail[i].v;
      JustifiedRemovable(s, vs, seen, kept, k);
    }
  }

  lemma RedundantRemovable(s: State, vs: set<nat>, seen: seq<bool>, kept: set<nat>, p: Lit)
    requires TrailInv(s) && MarksJustified(s, seen, kept - {p.v}, []) && kept <= vs && MarksFor(s, 2, vs, seen)
    requires Value(s.assigns, p) == LFalse && p.v in vs
    ensures RemovableVar(s, vs, p.v)
  {
    var i := FalseOnTrail(s, p);
    hide TrailInv, MarksJustified, Slots;
    JustifiedRemovable(s, vs, seen, kept - {p.v}, i);
  }

  /** A literal of the reason of a removable variable is covered, or removable on a level of vs. */
  lemma RemovableNeeds(s: State, vs: set<nat>, x: Lit, cr: nat, q: Lit)
    requires TrailInv(s) && RemovableVar(s, vs, x.v) && cr == Reason(s.vardata, x.v) && cr < |s.ca| && q in s.ca[cr]
    requires q.v != x.v && Level(s.vardata, q.v) > 0 && q.v !in vs
    ensures Level(s.vardata, q.v) % 32 in Slots(s, vs) && RemovableVar(s, vs, q.v) && Reason(s.vardata, q.v) != NO_REASON
  {
    var i: nat :| i < |s.trail| && s.trail[i].v == x.v && Removable(s, vs, Slots(s, vs), i);
    assert ReasonAt(s, i);
    hide TrailInv, Slots;
    assert q.Not() in s.trail[..i];
    var k: nat :| k < i && s.trail[k] == q.Not();
    var h :| 0 <= h < |s.ca[cr]| && s.ca[cr][h] == q;
    assert Edge(s, i, k) && Counts(s, k);
  }

  lemma {:induction false} RemovableSame(s: State, t: State, vs: set<nat>, levels: set<nat>, i: nat)
    requires Reordered(s, t)
    ensures Removable(s, vs, levels, i) <==> Removable(t, vs, levels, i)
    decreases i
  {
    forall k: nat | Edge(s, i, k) || Edge(t, i, k)
      ensures (Edge(s, i, k) <==> Edge(t, i, k)) && (Removable(s, vs, levels, k) <==> Removable(t, vs, levels, k))
    {
      EdgeSame(s, t, i, k);
      RemovableSame(s, t, vs, levels, k);
    }
  }

  lemma SuperfluousSame(s: State, t: State, mode: int, vs: set<nat>, v: nat)
    requires Reordered(s, t)
    ensures Superfluous(s, mode, vs, v) <==> Superfluous(t, mode, vs, v)
  {
    forall i: nat ensures SuperfluousAt(s, mode, vs, i) <==> SuperfluousAt(t, mode, vs, i) {
      assert Slots(s, vs) == Slots(t, vs);
      RemovableSame(s, t, vs, Slots(s, vs), i);
      forall k: nat ensures Edge(s, i, k) <==> Edge(t, i, k) { EdgeSame(s, t, i, k); }
      hide Removable, Slots, Edge;
    }
    hide SuperfluousAt, Slots;
  }

  lemma MarksForSame(s: State, t: State, mode: int, vs: set<nat>, seen: seq<bool>)
    requires s.vardata == t.vardata && MarksFor(s, mode, vs, seen)
    ensures MarksFor(t, mode, vs, seen) && Slots(s, vs) == Slots(t, vs)
  {
    assert Slots(s, vs) == Slots(t, vs);
  }

  /** Marking one more literal on a level of vs. */
  lemma MarksForOneMore(s: State, vs: set<nat>, seen: seq<bool>, v: nat)
    requires MarksFor(s, 2, vs, seen) && v < |seen| && Level(s.vardata, v) % 32 in Slots(s, vs)
    ensures MarksFor(s, 2, vs, seen[v := true])
  {
    hide Slots;
    forall u | Seen(seen[v := true], u) ensures Seen(seen, u) || u == v {}
    forall u | Seen(seen, u) ensures Seen(seen[v := true], u) {}
  }

  /** An unmarked literal of the reason of a removable variable can be marked, and is removable. */
  lemma ExpandNeeds(s: State, t: State, vs: set<nat>, seen: seq<bool>, x: Lit, cr: nat, i: nat)
    requires Reordered(s, t) && TrailInv(s) && RemovableVar(s, vs, x.v) && MarksFor(s, 2, vs, seen)
    requires cr == Reason(s.vardata, x.v) && ReasonReady(t, x.v) && 1 <= i < |t.ca[cr]|
    requires t.ca[cr][i].v < |seen| && !seen[t.ca[cr][i].v] && Level(s.vardata, t.ca[cr][i].v) > 0 && x.v != t.ca[cr][i].v
    ensures var q := t.ca[cr][i];
            Level(s.vardata, q.v) % 32 in Slots(s, vs) && RemovableVar(s, vs, q.v) && Reason(s.vardata, q.v) != NO_REASON
  {
    var q := t.ca[cr][i];
    assert q in t.ca[cr] && q in s.ca[cr];
    assert !Seen(seen, q.v);
    hide TrailInv, RemovableVar, Slots;
    RemovableNeeds(s, vs, x, cr, q);
  }

  /** In mode 1, a reason that is covered is one within vs. */
  lemma JustifiedDirect(s: State, mode: int, vs: set<nat>, seen: seq<bool>, x: Lit)
    requires TrailInv(s) && MarksFor(s, mode, vs, seen) && mode != 2 && Value(s.assigns, x) == LFalse
    requires Reason(s.vardata, x.v) != NO_REASON
    ensures Superfluous(s, 1, vs, x.v) <==> Justified(s, seen, x.v)
  {
    var i := FalseOnTrail(s, x);
    hide TrailInv, Direct, Justified;
    assert s.trail[i].v == x.v;
    if Direct(s, vs, i) { DirectCovers(s, vs, seen, i); }
    if Justified(s, seen, x.v) { CoveredDirect(s, vs, seen, i); }
    SuperfluousHere(s, vs, i);
  }

  lemma SuperfluousHere(s: State, vs: set<nat>, i: nat)
    requires TrailInv(s) && i < |s.trail|
    ensures Superfluous(s, 1, vs, s.trail[i].v) <==> Direct(s, vs, i)
  {
    hide Direct, TrailLevels, TrailReasons, ClausesOk, QueueOk;
    if Direct(s, vs, i) { assert SuperfluousAt(s, 1, vs, i); }
  }

  lemma DirectCovers(s: State, vs: set<nat>, seen: seq<bool>, i: nat)
    requires TrailInv(s) && Direct(s, vs, i) && forall v :: v in vs ==> Seen(seen, v)
    ensures Justified(s, seen, s.trail[i].v)
  {
    assert ReasonAt(s, i);
    hide TrailInv;
    var r := Reason(s.vardata, s.trail[i].v);
    forall l | l in s.ca[r] && l.v != s.trail[i].v ensures Covered(s, seen, l) {
      assert l.Not() in s.trail[..i];
      var k: nat :| k < i && s.trail[k] == l.Not();
      var h :| 0 <= h < |s.ca[r]| && s.ca[r][h] == l;
      assert Edge(s, i, k);
    }
  }

  lemma CoveredDirect(s: State, vs: set<nat>, seen: seq<bool>, i: nat)
    requires TrailInv(s) && i < |s.trail| && Justified(s, seen, s.trail[i].v) && Reason(s.vardata, s.trail[i].v) != NO_REASON
    requires forall v :: Seen(seen, v) ==> v in vs
    ensures Direct(s, vs, i)
  {
    hide TrailLevels, TrailReasons, ClausesOk, QueueOk;
    forall k: nat | Edge(s, i, k) && Counts(s, k) ensures s.trail[k].v in vs {
      assert s.trail[k].v != s.trail[i].v;
    }
  }

  lemma WithoutReason(s: State, mode: int, vs: set<nat>, v: nat)
    requires Reason(s.vardata, v) == NO_REASON || (mode != 1 && mode != 2)
    ensures !Superfluous(s, mode, vs, v)
  {}

  lemma DeepIsRemovable(s: State, vs: set<nat>, v: nat)
    ensures Superfluous(s, 2, vs, v) <==> RemovableVar(s, vs, v)
  {
    hide Removable, Slots;
    forall i: nat ensures SuperfluousAt(s, 2, vs, i) <==> Removable(s, vs, Slots(s, vs), i) {}
    hide SuperfluousAt;
  }

  // ------------------------------------------------------- what is kept of the clause

  /** The variables kept of c[1..i] are those that are not superfluous. */
  ghost predicate KeptSoFar(s: State, mode: int, vs: set<nat>, c: Clause, i: nat, kept: set<nat>) {
    1 <= i <= |c| && forall v :: v in kept <==> v in Vars(c[1..i]) && !Superfluous(s, mode, vs, v)
  }

  lemma KeptNone(s: State, mode: int, vs: set<nat>, c: Clause, out: Clause)
    requires |c| >= 1 && |out| >= 1
    ensures KeptSoFar(s, mode, vs, c, 1, Vars(out[1..1]))
  {}

  lemma VarsSnoc(c: Clause, x: Lit)
    ensures Vars(c + [x]) == Vars(c) + {x.v}
  {
    forall v | v in Vars(c) + {x.v} ensures v in Vars(c + [x]) {
      if v == x.v { assert (c + [x])[|c|] == x; } else { var l :| l in c && l.v == v; assert l in c + [x]; }
    }
  }

  lemma KeptNext(s: State, mode: int, vs: set<nat>, c: Clause, i: nat, out0: Clause, j0: nat, out: Clause, j: nat, redundant: bool)
    requires 1 <= j0 <= i < |out0| && i < |c| && out0[i] == c[i] && KeptSoFar(s, mode, vs, c, i, Vars(out0[1..j0]))
    requires redundant <==> Superfluous(s, mode, vs, c[i].v)
    requires out == if redundant then out0 else out0[j0 := out0[i]]
    requires j == if redundant then j0 else j0 + 1
    ensures KeptSoFar(s, mode, vs, c, i + 1, Vars(out[1..j]))
  {
    hide Vars, Superfluous;
    assert c[1..i + 1] == c[1..i] + [c[i]];
    VarsSnoc(c[1..i], c[i]);
    if !redundant {
      assert out[1..j] == out0[1..j0] + [c[i]];
      VarsSnoc(out0[1..j0], c[i]);
    }
  }

  lemma KeptAll(s: State, mode: int, c: Clause, out: Clause)
    requires |c| >= 1 && |out| >= 1 && KeptSoFar(s, mode, Vars(c[1..]), c, |c|, Vars(out[1..]))
    ensures Vars(out[1..]) == Thinned(s, mode, Vars(c[1..]))
  {
    hide Superfluous, Vars;
    assert c[1..|c|] == c[1..];
  }

  lemma SlotsOfClause(s: State, c: Clause)
    requires |c| >= 1
    ensures Slots(s, Vars(c[1..])) == set k | 1 <= k < |c| :: Level(s.vardata, c[k].v) % 32
  {
    forall k | 1 <= k < |c| ensures c[k].v in Vars(c[1..]) { assert c[1..][k - 1] == c[k]; }
    forall v | v in Vars(c[1..]) ensures exists k :: 1 <= k < |c| && c[k].v == v { KeptAt(c, v); }
  }

  /** The marks that the first-UIP loop leaves. */
  lemma UipMarksFor(s: State, mode: int, seen: seq<bool>, p: Lit, rest: Clause)
    requires UipFound(s, seen, p, rest)
    ensures MarksFor(s, mode, Vars(rest), seen)
  {
    forall v | Seen(seen, v) ensures v in Vars(rest) {
      assert VarIn(rest, v);
      var i :| 0 <= i < |rest| && rest[i].v == v;
      assert rest[i] in rest;
    }
  }

  lemma ReorderedTransitive(s: State, t: State, u: State)
    requires Reordered(s, t) && Reordered(t, u)
    ensures Reordered(s, u)
  {}

  lemma ReadyDistinct(s: State, x: Lit)
    requires TrailInv(s) && ReasonReady(s, x.v)
    ensures DistinctVars(s.ca[Reason(s.vardata, x.v)])
  {
    assert ClauseShape(s.ca[Reason(s.vardata, x.v)], |s.vardata|);
  }

  /** What a search that ran to its end has found. */
  lemma SearchedRemovable(s: State, t: State, vs: set<nat>, seen: seq<bool>, kept: set<nat>, p: Lit)
    requires Reordered(s, t) && TrailInv(s) && MarksJustified(t, seen, kept - {p.v}, []) && kept <= vs && MarksFor(s, 2, vs, seen)
    requires Value(s.assigns, p) == LFalse && p.v in vs
    ensures RemovableVar(s, vs, p.v)
  {
    forall v | Justified(t, seen, v) ensures Justified(s, seen, v) {
      assert SameLits(s.ca[Reason(s.vardata, v)], t.ca[Reason(s.vardata, v)]);
    }
    hide TrailInv, MarksFor, Justified;
    RedundantRemovable(s, vs, seen, kept, p);
  }

  lemma RemainingWithin(c: Clause, out: Clause, j: nat, i: nat)
    requires Filtered(c, out, j, i)
    ensures Remaining(out, j, i) <= Vars(c[1..])
    ensures i < |out| ==> out[i] == c[i] && c[i].v in Vars(c[1..])
  {
    if i < |out| {
      assert out[i..][0] == c[i..][0];
      assert c[1..][i - 1] == c[i];
    }
    forall v | v in Remaining(out, j, i) ensures v in Vars(c[1..]) {
      var l :| l in out[1..j] + out[i..] && l.v == v;
      if l in out[1..j] {
        var k :| 0 <= k < |out[1..j]| && out[1..j][k] == l;
        assert out[k + 1] in c[1..i];
        var h :| 0 <= h < |c[1..i]| && c[1..i][h] == l;
        assert c[1..][h] == l;
      } else {
        var k :| 0 <= k < |out[i..]| && out[i..][k] == l;
        assert c[i..][k] == l && c[1..][i - 1 + k] == l;
      }
    }
  }

  lemma JustifiedNotKept(s: State, seen: seq<bool>, kept: set<nat>, v: nat)
    requires MarksJustified(s, seen, kept, []) && Justified(s, seen, v)
    ensures MarksJustified(s, seen, kept - {v}, [])
  {}

  /** The expansion of x so far: if x and the work before are removable, so is the work now. */
  ghost predicate Sought(s: State, vs: set<nat>, seen: seq<bool>, x: Lit, work0: seq<Lit>, work: seq<Lit>) {
    && MarksFor(s, 2, vs, seen)
    && (RemovableVar(s, vs, x.v) && AllRemovable(s, vs, work0) ==> AllRemovable(s, vs, work))
  }

  lemma SoughtStart(s: State, vs: set<nat>, seen: seq<bool>, x: Lit, work: seq<Lit>)
    requires MarksFor(s, 2, vs, seen)
    ensures Sought(s, vs, seen, x, work, work)
  {}

  lemma SoughtEnd(s: State, vs: set<nat>, seen: seq<bool>, x: Lit, work0: seq<Lit>, work: seq<Lit>)
    requires Sought(s, vs, seen, x, work0, work)
    ensures MarksFor(s, 2, vs, seen)
    ensures RemovableVar(s, vs, x.v) && AllRemovable(s, vs, work0) ==> AllRemovable(s, vs, work)
  {}

  /** An unmarked literal of the reason is queued, or x is not removable. */
  lemma SoughtNext(s: State, t: State, vs: set<nat>, seen: seq<bool>, x: Lit, cr: nat, i: nat, work0: seq<Lit>, work: seq<Lit>)
    requires Reordered(s, t) && TrailInv(s) && Sought(s, vs, seen, x, work0, work)
    requires cr == Reason(s.vardata, x.v) && ReasonReady(t, x.v) && 1 <= i < |t.ca[cr]|
    requires t.ca[cr][i].v < |seen| && !seen[t.ca[cr][i].v] && Level(s.vardata, t.ca[cr][i].v) > 0 && x.v != t.ca[cr][i].v
    ensures var q := t.ca[cr][i];
            if Reason(s.vardata, q.v) != NO_REASON && Level(s.vardata, q.v) % 32 in Slots(s, vs) then
              Sought(s, vs, seen[q.v := true], x, work0, work + [q])
            else !RemovableVar(s, vs, x.v)
  {
    var q := t.ca[cr][i];
    hide TrailInv, Slots, MarksFor, RemovableVar, ReasonReady, Reordered;
    if RemovableVar(s, vs, x.v) { ExpandNeeds(s, t, vs, seen, x, cr, i); }
    if Level(s.vardata, q.v) % 32 in Slots(s, vs) { MarksForOneMore(s, vs, seen, q.v); }
  }

  lemma ReadyFacts(s: State, t: State, x: Lit, cr: nat)
    requires Reordered(s, t) && cr == Reason(t.vardata, x.v) && ReasonReady(t, x.v) && DistinctVars(t.ca[cr])
    ensures s.vardata == t.vardata && |t.ca[cr]| >= 2
    ensures forall j :: 1 <= j < |t.ca[cr]| ==>
              t.ca[cr][j].v < |t.vardata| && Value(t.assigns, t.ca[cr][j]) == LFalse && t.ca[cr][j].v != x.v
  {}

  lemma ReadyJustified(s: State, seen: seq<bool>, x: Lit, cr: nat)
    requires cr == Reason(s.vardata, x.v) && ReasonReady(s, x.v)
    requires forall j :: 1 <= j < |s.ca[cr]| ==> Covered(s, seen, s.ca[cr][j])
    ensures Justified(s, seen, x.v)
  {
    forall l | l in s.ca[cr] && l.v != x.v ensures Covered(s, seen, l) {
      var j :| 0 <= j < |s.ca[cr]| && s.ca[cr][j] == l;
    }
  }

  // ------------------------------------------------------- resolution with binary clauses

  ghost predicate ByBlocker(s: State, ws: seq<Watcher>, k: nat, v: nat) {
    k <= |ws| && exists j :: 0 <= j < k && ws[j].blocker.v == v && Value(s.assigns, ws[j].blocker) == LTrue
  }

  lemma NoBlocker(s: State, ws: seq<Watcher>)
    ensures forall v :: !ByBlocker(s, ws, 0, v)
  {}

  lemma NextBlocker(s: State, ws: seq<Watcher>, k: nat)
    requires k < |ws|
    ensures var b := ws[k].blocker;
            forall v :: ByBlocker(s, ws, k + 1, v) <==> ByBlocker(s, ws, k, v) || (v == b.v && Value(s.assigns, b) == LTrue)
  {
    forall v | ByBlocker(s, ws, k, v) ensures ByBlocker(s, ws, k + 1, v) {}
  }

  /** The binary list of the asserting literal shows every binary clause with it. */
  lemma BlockersResolve(s: State, c: Clause, v: nat)
    requires SolverInv(s, |s.trailLim|) && LearntOk(s, c) && c[0].Not() in s.watchesBin
    ensures var ws := s.watchesBin[c[0].Not()]; ByBlocker(s, ws, |ws|, v) <==> Resolvable(s, c[0], v)
  {
    var a := c[0];
    var ws := s.watchesBin[a.Not()];
    if ByBlocker(s, ws, |ws|, v) {
      var j :| 0 <= j < |ws| && ws[j].blocker.v == v && Value(s.assigns, ws[j].blocker) == LTrue;
      hide LearntOk, TrailInv;
      WatcherResolves(s, c, j);
    }
    if Resolvable(s, a, v) {
      var imp: Lit :| imp.v == v && Value(s.assigns, imp) == LTrue && BinaryPair(s, a, imp);
      PairWatched(s, a, imp);
    }
  }

  lemma PairWatched(s: State, a: Lit, b: Lit)
    requires AllAttached(s) && BinaryPair(s, a, b)
    ensures a.Not() in s.watchesBin && exists j :: 0 <= j < |s.watchesBin[a.Not()]| && s.watchesBin[a.Not()][j].blocker == b
  {
    var cr :| 0 <= cr < |s.ca| && |s.ca[cr]| == 2 && a in s.ca[cr] && b in s.ca[cr] && a != b;
    assert Attached(s, cr);
    var c := s.ca[cr];
    var i :| 0 <= i < 2 && c[i] == a;
    var k :| 0 <= k < 2 && c[k] == b;
    var w := Watcher(cr, b);
    assert HasBinary(s.watchesBin, a.Not(), w);
    var j :| 0 <= j < |s.watchesBin[a.Not()]| && s.watchesBin[a.Not()][j] == w;
  }

  lemma HeadAndRest(c: Clause)
    requires |c| >= 1
    ensures Vars(c) == {c[0].v} + Vars(c[1..])
  {
    forall v | v in Vars(c) ensures v in {c[0].v} + Vars(c[1..]) {
      var l :| l in c && l.v == v;
      var k :| 0 <= k < |c| && c[k] == l;
      if k > 0 { assert c[1..][k - 1] == l; }
    }
    forall v | v in {c[0].v} + Vars(c[1..]) ensures v in Vars(c) {
      if v == c[0].v { assert c[0] in c; } else { var l :| l in c[1..] && l.v == v; assert l in c; }
    }
  }

  lemma GoneInClause(c: Clause, gone: set<nat>)
    requires |c| >= 1 && DistinctVars(c) && gone <= Vars(c[1..])
    ensures forall v :: v in gone ==> v != c[0].v && VarIn(c, v)
  {
    forall v | v in gone ensures v != c[0].v && VarIn(c, v) {
      var l :| l in c[1..] && l.v == v;
      MarkedVars(c);
    }
  }

  lemma GoneResolvable(s: State, c: Clause, d: Clause, gone: set<nat>)
    requires |c| >= 1 && forall v :: v in gone ==> Resolvable(s, c[0], v)
    requires forall x :: x in d <==> x in c && x.v !in gone
    ensures forall l :: l in c && l !in d ==> Resolvable(s, c[0], l.v)
  {}

  lemma SortedVars(c: Clause, d: Clause, gone: set<nat>)
    requires |c| >= 1 && |d| >= 1 && d[0] == c[0] && DistinctVars(c) && DistinctVars(d) && gone <= Vars(c[1..])
    requires forall x :: x in d <==> x in c && x.v !in gone
    ensures Vars(d[1..]) == Vars(c[1..]) - gone
  {
    forall v | v in Vars(d[1..]) ensures v in Vars(c[1..]) - gone {
      var l :| l in d[1..] && l.v == v;
      MarkedVars(d);
      assert l in d && l in c && l != c[0];
      InRest(c, l);
    }
    forall v | v in Vars(c[1..]) - gone ensures v in Vars(d[1..]) {
      var l :| l in c[1..] && l.v == v;
      MarkedVars(c);
      assert l in c && l in d && l != d[0];
      InRest(d, l);
    }
  }

  lemma InRest(c: Clause, l: Lit)
    requires |c| >= 1 && l in c && l != c[0]
    ensures l in c[1..]
  {
    var k :| 0 <= k < |c| && c[k] == l;
    assert c[1..][k - 1] == l;
  }

  lemma SwapVars(c: Clause, k: nat)
    requires 1 <= k < |c|
    ensures var d := c[k := c[1]][1 := c[k]]; Vars(d[1..]) == Vars(c[1..])
  {
    var d := c[k := c[1]][1 := c[k]];
    forall l ensures l in d[1..] <==> l in c[1..] {
      if l in d[1..] {
        var i :| 0 <= i < |d[1..]| && d[1..][i] == l;
        assert c[1..][if i == 0 then k - 1 else if i == k - 1 then 0 else i] == l;
      }
      if l in c[1..] {
        var i :| 0 <= i < |c[1..]| && c[1..][i] == l;
        assert d[1..][if i == 0 then k - 1 else if i == k - 1 then 0 else i] == l;
      }
    }
  }

  // ------------------------------------------------------- the clause learnt

  lemma ThinnedSame(s: State, t: State, mode: int, vs: set<nat>)
    requires Reordered(s, t)
    ensures Thinned(s, mode, vs) == Thinned(t, mode, vs)
  {
    hide Superfluous;
    forall v ensures Superfluous(s, mode, vs, v) <==> Superfluous(t, mode, vs, v) { SuperfluousSame(s, t, mode, vs, v); }
  }

  lemma ResolvableSame(s: State, t: State, a: Lit, v: nat)
    requires Reordered(s, t)
    ensures Resolvable(s, a, v) <==> Resolvable(t, a, v)
  {
    forall b ensures BinaryPair(s, a, b) <==> BinaryPair(t, a, b) {
      if BinaryPair(s, a, b) {
        var cr :| 0 <= cr < |s.ca| && |s.ca[cr]| == 2 && a in s.ca[cr] && b in s.ca[cr] && a != b;
        assert SameLits(s.ca[cr], t.ca[cr]);
      }
      if BinaryPair(t, a, b) {
        var cr :| 0 <= cr < |t.ca| && |t.ca[cr]| == 2 && a in t.ca[cr] && b in t.ca[cr] && a != b;
        assert SameLits(s.ca[cr], t.ca[cr]);
      }
    }
  }

  lemma ResolvedSame(s: State, t: State, a: Lit, vs: set<nat>, lbdLimit: nat)
    requires Reordered(s, t)
    ensures Resolved(s, a, vs, lbdLimit) == Resolved(t, a, vs, lbdLimit)
  {
    assert LevelsOf(s, {a.v} + vs) == LevelsOf(t, {a.v} + vs);
    forall v ensures Resolvable(s, a, v) <==> Resolvable(t, a, v) { ResolvableSame(s, t, a, v); }
    hide Resolvable, LevelsOf;
    assert Unresolved(s, a, vs) == Unresolved(t, a, vs);
  }

  lemma TailSize(s: State, c: Clause)
    requires LearntOk(s, c)
    ensures |c| >= 1 && |c| == 1 + |Vars(c[1..])|
  {
    forall i, j | 0 <= i < j < |c[1..]| ensures c[1..][i].v != c[1..][j].v {
      assert c[1..][i] == c[i + 1] && c[1..][j] == c[j + 1];
    }
    VarsCard(c[1..]);
  }

  lemma LearntIs(s: State, t: State, confl: nat, mode: int, sizeLimit: nat, lbdLimit: nat, p: Lit, vs: set<nat>, c: Clause, bt: nat)
    requires IsFirstUip(s, confl, p, vs) && Asserting(t, c, bt) && c[0] == p.Not()
    requires var kept := Thinned(s, mode, vs);
             Vars(c[1..]) == if 1 + |kept| <= sizeLimit then Resolved(s, p.Not(), kept, lbdLimit) else kept
    ensures LearntFrom(s, confl, mode, sizeLimit, lbdLimit, c)
  {
    hide IsFirstUip, Thinned, Resolved, Vars;
    assert LeftOf(s, p, Thinned(s, mode, vs), sizeLimit, lbdLimit, c);
  }

  lemma AssertingSize(s: State, c: Clause, bt: nat)
    requires Asserting(s, c, bt)
    ensures |c| >= 1
  {}
}
