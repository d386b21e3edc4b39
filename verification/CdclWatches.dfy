/** The two-watched-literal scheme: which clauses sit in which watcher list, and why a processed
    false watch never needs repair after backtracking. */
module CdclWatches {
  import opened Sat
  import opened CdclState

  /** l is true and was so no later than decision level lv. */
  ghost predicate TrueBy(s: State, l: Lit, lv: nat) {
    Value(s.assigns, l) == LTrue && Level(s.vardata, l.v) <= lv
  }

  /** A watcher in the list of p: its clause watches the negation of p. */
  ghost predicate WatcherShape(s: State, p: Lit, w: Watcher) {
    && w.cref < |s.ca|
    && |s.ca[w.cref]| > 2
    && (s.ca[w.cref][0] == p.Not() || s.ca[w.cref][1] == p.Not())
    && w.blocker in s.ca[w.cref] && w.blocker != p.Not()
  }

  /** A watcher in the binary list of p: clause {not p, blocker}. */
  ghost predicate BinaryShape(s: State, p: Lit, w: Watcher) {
    && w.cref < |s.ca|
    && |s.ca[w.cref]| == 2
    && p.Not() in s.ca[w.cref]
    && w.blocker in s.ca[w.cref] && w.blocker != p.Not()
  }

  ghost predicate ListShape(s: State, p: Lit, ws: seq<Watcher>) {
    && (forall k :: 0 <= k < |ws| ==> WatcherShape(s, p, ws[k]))
    && (forall j, k :: 0 <= j < k < |ws| ==> ws[j].cref != ws[k].cref)
  }

  ghost predicate WatchShape(s: State) {
    && (forall l: Lit :: l.v < |s.vardata| ==> l in s.watches && l in s.watchesBin)
    && (forall p :: p in s.watches ==> ListShape(s, p, s.watches[p]))
    && (forall p :: p in s.watchesBin ==> forall k :: 0 <= k < |s.watchesBin[p]| ==> BinaryShape(s, p, s.watchesBin[p][k]))
  }

  ghost predicate Has(ws: map<Lit, seq<Watcher>>, p: Lit, cr: nat) {
    p in ws && exists k :: 0 <= k < |ws[p]| && ws[p][k].cref == cr
  }

  ghost predicate HasBinary(ws: map<Lit, seq<Watcher>>, p: Lit, w: Watcher) {
    p in ws && w in ws[p]
  }

  /** Every clause is in the lists of the negations of its two watched literals. */
  ghost predicate Attached(s: State, cr: nat)
    requires cr < |s.ca| && |s.ca[cr]| >= 2
  {
    var c := s.ca[cr];
    if |c| == 2 then
      HasBinary(s.watchesBin, c[0].Not(), Watcher(cr, c[1])) && HasBinary(s.watchesBin, c[1].Not(), Watcher(cr, c[0]))
    else
      Has(s.watches, c[0].Not(), cr) && Has(s.watches, c[1].Not(), cr)
  }

  ghost predicate AllAttached(s: State) {
    forall cr :: 0 <= cr < |s.ca| ==> |s.ca[cr]| >= 2 && Attached(s, cr)
  }

  /** The watched literal other than the negation of p. */
  function Other(c: Clause, p: Lit): Lit
    requires |c| >= 2
  {
    if c[0] == p.Not() then c[1] else c[0]
  }

  /** The false watch behind w is excused: the blocker or the other watch is true at no higher level. */
  ghost predicate WatcherOk(s: State, p: Lit, w: Watcher) {
    var lv := Level(s.vardata, p.v);
    w.cref < |s.ca| && |s.ca[w.cref]| >= 2 && (TrueBy(s, w.blocker, lv) || TrueBy(s, Other(s.ca[w.cref], p), lv))
  }

  ghost predicate LongDone(s: State, p: Lit) {
    p in s.watches && forall k :: 0 <= k < |s.watches[p]| ==> WatcherOk(s, p, s.watches[p][k])
  }

  ghost predicate BinaryDone(s: State, p: Lit) {
    p in s.watchesBin &&
    forall k :: 0 <= k < |s.watchesBin[p]| ==> TrueBy(s, s.watchesBin[p][k].blocker, Level(s.vardata, p.v))
  }

  /** The first q literals of the trail are propagated, as far as they lie below level lb. */
  ghost predicate Propagated(s: State, q: nat, lb: nat) {
    && q <= |s.trail|
    && forall i :: 0 <= i < q && Level(s.vardata, s.trail[i].v) < lb ==>
                     LongDone(s, s.trail[i]) && BinaryDone(s, s.trail[i])
  }

  /** The invariant of the engine between propagations; lb bounds the levels that are in order. */
  ghost predicate SolverInv(s: State, lb: nat) {
    && TrailInv(s)
    && WatchShape(s)
    && AllAttached(s)
    && Propagated(s, s.qhead, lb)
  }

  // ------------------------------------------------------- the payoff

  /** In a fully propagated state every clause is true or has two literals that are not false. */
  ghost predicate Settled(s: State, c: Clause) {
    || (exists l :: l in c && Value(s.assigns, l) == LTrue)
    || (exists i, j :: 0 <= i < j < |c| && Value(s.assigns, c[i]) != LFalse && Value(s.assigns, c[j]) != LFalse)
  }

  lemma PropagatedFalseWatch(s: State, cr: nat, i: nat)
    requires SolverInv(s, |s.trailLim| + 1) && s.qhead == |s.trail|
    requires cr < |s.ca| && i < 2 && |s.ca[cr]| >= 2 && Value(s.assigns, s.ca[cr][i]) == LFalse
    ensures exists l :: l in s.ca[cr] && Value(s.assigns, l) == LTrue
  {
    var c := s.ca[cr];
    var k := FalseOnTrail(s, c[i]);
    var p := s.trail[k];
    assert InLevel(s, k, Level(s.vardata, p.v));
    assert LongDone(s, p) && BinaryDone(s, p);
    assert Attached(s, cr);
    if |c| == 2 {
      assert HasBinary(s.watchesBin, p, Watcher(cr, c[1 - i]));
    } else {
      assert Has(s.watches, p, cr);
      var j :| 0 <= j < |s.watches[p]| && s.watches[p][j].cref == cr;
      assert WatcherOk(s, p, s.watches[p][j]) && WatcherShape(s, p, s.watches[p][j]);
    }
  }

  lemma FullyPropagated(s: State)
    requires SolverInv(s, |s.trailLim| + 1) && s.qhead == |s.trail|
    ensures forall cr :: 0 <= cr < |s.ca| ==> Settled(s, s.ca[cr])
  {
    forall cr | 0 <= cr < |s.ca| ensures Settled(s, s.ca[cr]) {
      var c := s.ca[cr];
      assert |c| >= 2;
      if Value(s.assigns, c[0]) == LFalse { PropagatedFalseWatch(s, cr, 0); }
      else if Value(s.assigns, c[1]) == LFalse { PropagatedFalseWatch(s, cr, 1); }
      else { assert 0 <= 0 < 1 < |c|; }
    }
  }

  // ------------------------------------------------------- backtracking

  ghost predicate VarIn(lits: seq<Lit>, v: nat) {
    exists i :: 0 <= i < |lits| && lits[i].v == v
  }

  ghost function Unassign(assigns: seq<LBool>, lits: seq<Lit>): seq<LBool> {
    seq(|assigns|, v requires 0 <= v < |assigns| => if VarIn(lits, v) then LUndef else assigns[v])
  }

  /** What cancelUntil leaves: the trail up to the given level, and the watcher lists untouched. */
  ghost function Cancel(s: State, level: nat): State
    requires level < |s.trailLim| && s.trailLim[level] <= |s.trail|
  {
    var lim := s.trailLim[level];
    s.(assigns := Unassign(s.assigns, s.trail[lim..]), trail := s.trail[..lim],
       trailLim := s.trailLim[..level], qhead := lim)
  }

  lemma CancelValues(s: State, level: nat)
    requires TrailValues(s) && TrailLevels(s) && level < |s.trailLim|
    ensures TrailValues(Cancel(s, level))
    ensures forall l: Lit :: Value(s.assigns, l) == LTrue && Level(s.vardata, l.v) <= level ==>
                               Value(Cancel(s, level).assigns, l) == LTrue
    ensures forall l: Lit :: Value(Cancel(s, level).assigns, l) == LTrue ==>
                               Value(s.assigns, l) == LTrue && Level(s.vardata, l.v) <= level
  {
    hide Cancel, InLevel;
    CancelKept(s, level);
    forall l: Lit | Value(s.assigns, l) == LTrue && Level(s.vardata, l.v) <= level
      ensures Value(Cancel(s, level).assigns, l) == LTrue
    {
      CancelStays(s, level, l);
    }
  }

  /** What is true after cancelling is the kept part of the trail. */
  lemma CancelKept(s: State, level: nat)
    requires TrailValues(s) && TrailLevels(s) && level < |s.trailLim|
    ensures TrailValues(Cancel(s, level)) && s.trailLim[level] <= |s.trail|
    ensures forall l: Lit :: Value(Cancel(s, level).assigns, l) == LTrue ==>
                               Value(s.assigns, l) == LTrue && Level(s.vardata, l.v) <= level
  {
    var t, lim := Cancel(s, level), s.trailLim[level];
    forall i | 0 <= i < lim ensures Value(t.assigns, s.trail[i]) == LTrue && Level(s.vardata, s.trail[i].v) <= level {
      assert t.trail[i] == s.trail[i];
      assert InLevel(s, i, Level(s.vardata, s.trail[i].v));
      assert !VarIn(s.trail[lim..], s.trail[i].v);
    }
    forall i | lim <= i < |s.trail| ensures VarIn(s.trail[lim..], s.trail[i].v) {
      assert s.trail[lim..][i - lim] == s.trail[i];
    }
    forall l: Lit | Value(t.assigns, l) == LTrue ensures Value(s.assigns, l) == LTrue && l in t.trail {
      assert Value(s.assigns, l) == LTrue;
      var i :| 0 <= i < |s.trail| && s.trail[i] == l;
      assert i < lim && t.trail[i] == l;
    }
  }

  /** A true literal of a level that is kept is still true. */
  lemma CancelStays(s: State, level: nat, l: Lit)
    requires TrailValues(s) && TrailLevels(s) && level < |s.trailLim| && s.trailLim[level] <= |s.trail|
    requires Value(s.assigns, l) == LTrue && Level(s.vardata, l.v) <= level
    ensures Value(Cancel(s, level).assigns, l) == LTrue
  {
    var lim := s.trailLim[level];
    var i :| 0 <= i < |s.trail| && s.trail[i] == l;
    assert InLevel(s, i, Level(s.vardata, l.v));
    assert i < lim;
    forall k | 0 <= k < |s.trail[lim..]| ensures s.trail[lim..][k].v != l.v {
      assert s.trail[lim..][k] == s.trail[lim + k];
    }
  }

  lemma CancelTrail(s: State, level: nat)
    requires TrailInv(s) && level < |s.trailLim|
    ensures TrailInv(Cancel(s, level))
  {
    var t, lim := Cancel(s, level), s.trailLim[level];
    CancelValues(s, level);
    forall i | 0 <= i < |t.trail|
      ensures InLevel(t, i, Level(t.vardata, t.trail[i].v)) && ReasonAt(t, i)
    {
      assert t.trail[i] == s.trail[i] && t.trail[..i] == s.trail[..i];
      assert InLevel(s, i, Level(s.vardata, s.trail[i].v)) && ReasonAt(s, i);
    }
  }

  /** Backtracking forgets no level-0 fact, so the models stay the same. */
  lemma CancelKeepsModels(s: State, level: nat, m: Model)
    requires TrailInv(s) && level < |s.trailLim|
    ensures Models(Cancel(s, level), m) <==> Models(s, m)
  {
    var t, lim := Cancel(s, level), s.trailLim[level];
    assert forall i :: 0 <= i < lim ==> t.trail[i] == s.trail[i];
    if Models(t, m) {
      forall i | 0 <= i < |s.trail| && Level(s.vardata, s.trail[i].v) == 0 ensures LitTrue(m, s.trail[i]) {
        assert InLevel(s, i, Level(s.vardata, s.trail[i].v));
        assert s.trailLim[0] <= lim;
        assert LitTrue(m, t.trail[i]);
      }
    }
  }

  /** Backtracking needs no watch repair: the excuse of every remaining false watch survives it. */
  lemma CancelKeepsInvariant(s: State, level: nat)
    requires level < |s.trailLim|
    requires SolverInv(s, |s.trailLim|)
    ensures SolverInv(Cancel(s, level), level + 1)
  {
    var t, lim := Cancel(s, level), s.trailLim[level];
    CancelTrail(s, level);
    CancelValues(s, level);
    assert WatchShape(t) by {
      forall p | p in t.watches ensures ListShape(t, p, t.watches[p]) {
        assert ListShape(s, p, s.watches[p]);
        assert forall k :: 0 <= k < |s.watches[p]| ==> WatcherShape(s, p, s.watches[p][k]);
      }
      forall p, k | p in t.watchesBin && 0 <= k < |t.watchesBin[p]| ensures BinaryShape(t, p, t.watchesBin[p][k]) {
        assert BinaryShape(s, p, s.watchesBin[p][k]);
      }
    }
    assert AllAttached(t) by {
      forall cr | 0 <= cr < |t.ca| ensures Attached(t, cr) { assert Attached(s, cr); }
    }
    forall i | 0 <= i < lim ensures LongDone(t, t.trail[i]) && BinaryDone(t, t.trail[i]) {
      CancelKeepsDone(s, level, i);
    }
  }

  lemma CancelKeepsDone(s: State, level: nat, i: nat)
    requires level < |s.trailLim| && TrailInv(s) && Propagated(s, s.qhead, |s.trailLim|) && i < s.trailLim[level]
    ensures LongDone(Cancel(s, level), s.trail[i]) && BinaryDone(Cancel(s, level), s.trail[i])
  {
    var t, p := Cancel(s, level), s.trail[i];
    CancelValues(s, level);
    assert InLevel(s, i, Level(s.vardata, p.v));
    assert LongDone(s, p) && BinaryDone(s, p);
    forall k | 0 <= k < |s.watches[p]| ensures WatcherOk(t, p, s.watches[p][k]) {
      assert WatcherOk(s, p, s.watches[p][k]);
    }
  }

  /** Whatever was in the heap or belongs to the literals is in the new heap. */
  ghost predicate HoldsBoth(heap: set<nat>, lits: seq<Lit>, after: set<nat>) {
    forall v :: v in heap || VarIn(lits, v) ==> v in after
  }

  lemma HoldsOneMore(heap: set<nat>, trail: seq<Lit>, c: nat, after: set<nat>)
    requires c < |trail| && HoldsBoth(heap, trail[c + 1..], after)
    ensures HoldsBoth(heap, trail[c..], after + {trail[c].v})
  {
    forall v | VarIn(trail[c..], v) ensures v in after + {trail[c].v} {
      var i :| 0 <= i < |trail[c..]| && trail[c..][i].v == v;
      if i > 0 { assert trail[c + 1..][i - 1].v == v; }
    }
  }

  /** Before anything is undone. */
  lemma CancelReady(s: State, level: nat, heap: set<nat>)
    requires TrailInv(s) && level < |s.trailLim|
    ensures s.trailLim[level] <= |s.trail| && Unassign(s.assigns, s.trail[|s.trail|..]) == s.assigns
    ensures HoldsBoth(heap, s.trail[|s.trail|..], heap)
    ensures forall i :: 0 <= i < |s.trail| ==> s.trail[i].v < |s.assigns|
  {}

  lemma UnassignOne(a: seq<LBool>, trail: seq<Lit>, c: nat)
    requires c < |trail| && trail[c].v < |a|
    ensures Unassign(a, trail[c + 1..])[trail[c].v := LUndef] == Unassign(a, trail[c..])
    ensures forall v :: VarIn(trail[c..], v) <==> VarIn(trail[c + 1..], v) || v == trail[c].v
  {
    forall v ensures VarIn(trail[c..], v) <==> VarIn(trail[c + 1..], v) || v == trail[c].v {
      if VarIn(trail[c..], v) {
        var i :| 0 <= i < |trail[c..]| && trail[c..][i].v == v;
        if i > 0 { assert trail[c + 1..][i - 1].v == v; }
      }
      if VarIn(trail[c + 1..], v) {
        var i :| 0 <= i < |trail[c + 1..]| && trail[c + 1..][i].v == v;
        assert trail[c..][i + 1].v == v;
      }
      assert trail[c..][0] == trail[c];
    }
  }
}
