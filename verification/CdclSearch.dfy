/** What the search keeps between its steps: learning, deciding, assumptions and answers. */
module CdclSearch {
  import opened Sat
  import opened CdclState
  import opened CdclWatches
  import opened CdclPropagate
  import opened CdclAnalyze
  import opened CdclMinimize
  import opened CdclRank

  // ------------------------------------------------------- attaching a clause

  function AddWatcher(ws: map<Lit, seq<Watcher>>, p: Lit, w: Watcher): map<Lit, seq<Watcher>>
    requires p in ws
  {
    ws[p := ws[p] + [w]]
  }

  /** The arena with clause c appended and its two watches installed. */
  function AttachNew(s: State, c: Clause): State
    requires |c| >= 2 && c[0].Not() in s.watches && c[1].Not() in s.watches
    requires c[0].Not() in s.watchesBin && c[1].Not() in s.watchesBin
  {
    var cr := |s.ca|;
    if |c| == 2 then
      s.(ca := s.ca + [c],
         watchesBin := AddWatcher(AddWatcher(s.watchesBin, c[0].Not(), Watcher(cr, c[1])), c[1].Not(), Watcher(cr, c[0])))
    else
      s.(ca := s.ca + [c],
         watches := AddWatcher(AddWatcher(s.watches, c[0].Not(), Watcher(cr, c[1])), c[1].Not(), Watcher(cr, c[0])))
  }

  ghost predicate Attachable(s: State, c: Clause) {
    && ClauseShape(c, |s.vardata|)
    && c[0].Not() in s.watches && c[1].Not() in s.watches
    && c[0].Not() in s.watchesBin && c[1].Not() in s.watchesBin
  }

  lemma CanAttach(s: State, c: Clause)
    requires WatchShape(s) && ClauseShape(c, |s.vardata|)
    ensures Attachable(s, c)
  {
    assert c[0] in c && c[1] in c;
  }

  lemma AttachKeepsTrail(s: State, c: Clause)
    requires TrailInv(s) && Attachable(s, c)
    ensures TrailInv(AttachNew(s, c))
    ensures forall m :: Models(AttachNew(s, c), m) <==> Models(s, m) && ClauseTrue(m, c)
  {
    var t := AttachNew(s, c);
    AttachedClauses(s, c);
    forall i | 0 <= i < |t.trail| ensures ReasonAt(t, i) && InLevel(t, i, Level(t.vardata, t.trail[i].v)) {
      assert ReasonAt(s, i) && InLevel(s, i, Level(s.vardata, s.trail[i].v));
    }
    AttachedModels(s, c);
  }

  lemma AttachedClauses(s: State, c: Clause)
    requires Attachable(s, c)
    ensures AttachNew(s, c).ca == s.ca + [c]
    ensures forall k :: 0 <= k < |s.ca| ==> AttachNew(s, c).ca[k] == s.ca[k]
    ensures AttachNew(s, c).ca[|s.ca|] == c
  {}

  lemma AttachedModels(s: State, c: Clause)
    requires Attachable(s, c)
    ensures forall m :: Models(AttachNew(s, c), m) <==> Models(s, m) && ClauseTrue(m, c)
  {
    var t := AttachNew(s, c);
    AttachedClauses(s, c);
    forall m ensures Models(t, m) <==> Models(s, m) && ClauseTrue(m, c) {
      if Models(t, m) {
        forall k | 0 <= k < |s.ca| ensures ClauseTrue(m, s.ca[k]) { assert ClauseTrue(m, t.ca[k]); }
        assert ClauseTrue(m, t.ca[|s.ca|]);
      }
    }
  }

  lemma OldListShape(s: State, t: State, p: Lit, ws: seq<Watcher>)
    requires ListShape(s, p, ws) && s.ca <= t.ca
    ensures ListShape(t, p, ws)
  {
    forall k | 0 <= k < |ws| ensures WatcherShape(t, p, ws[k]) {
      assert WatcherShape(s, p, ws[k]);
      assert t.ca[ws[k].cref] == s.ca[ws[k].cref];
    }
  }

  lemma NewListShape(s: State, t: State, p: Lit, ws: seq<Watcher>, w: Watcher)
    requires ListShape(s, p, ws) && s.ca <= t.ca && w.cref == |s.ca| && WatcherShape(t, p, w)
    ensures ListShape(t, p, ws + [w])
  {
    OldListShape(s, t, p, ws);
    forall k | 0 <= k < |ws| ensures ws[k].cref < |s.ca| { assert WatcherShape(s, p, ws[k]); }
  }

  lemma AttachKeepsShape(s: State, c: Clause)
    requires WatchShape(s) && Attachable(s, c)
    ensures WatchShape(AttachNew(s, c))
  {
    var t := AttachNew(s, c);
    assert c[0] in c && c[1] in c && c[0] != c[1];
    forall p | p in t.watches ensures ListShape(t, p, t.watches[p]) {
      assert ListShape(s, p, s.watches[p]);
      if |c| > 2 && (p == c[0].Not() || p == c[1].Not()) {
        var w := Watcher(|s.ca|, if p == c[0].Not() then c[1] else c[0]);
        NewListShape(s, t, p, s.watches[p], w);
        assert t.watches[p] == s.watches[p] + [w];
      } else {
        OldListShape(s, t, p, s.watches[p]);
      }
    }
    forall p, k | p in t.watchesBin && 0 <= k < |t.watchesBin[p]| ensures BinaryShape(t, p, t.watchesBin[p][k]) {
      if k < |s.watchesBin[p]| { assert BinaryShape(s, p, s.watchesBin[p][k]); }
    }
  }

  lemma AttachKeepsAttached(s: State, c: Clause)
    requires AllAttached(s) && Attachable(s, c)
    ensures AllAttached(AttachNew(s, c))
  {
    var t := AttachNew(s, c);
    var cr := |s.ca|;
    forall p, k: nat | Has(s.watches, p, k) ensures Has(t.watches, p, k) {
      var i :| 0 <= i < |s.watches[p]| && s.watches[p][i].cref == k;
      assert t.watches[p][i].cref == k;
    }
    forall p, w | HasBinary(s.watchesBin, p, w) ensures HasBinary(t.watchesBin, p, w) {}
    forall k | 0 <= k < |t.ca| ensures |t.ca[k]| >= 2 && Attached(t, k) {
      if k < cr {
        assert Attached(s, k);
      } else if |c| > 2 {
        assert t.watches[c[0].Not()][|s.watches[c[0].Not()]|].cref == cr;
        assert t.watches[c[1].Not()][|s.watches[c[1].Not()]|].cref == cr;
      }
    }
  }

  // ------------------------------------------------------- learning

  /** Returning to level bt leaves the asserting literal free and the other literals false. */
  lemma AssertingAfterCancel(s: State, c: Clause, bt: nat)
    requires TrailInv(s) && Asserting(s, c, bt) && bt < |s.trailLim|
    ensures var t := Cancel(s, bt);
            && Value(t.assigns, c[0]) == LUndef
            && forall k :: 1 <= k < |c| ==> Value(t.assigns, c[k]) == LFalse
  {
    var t := Cancel(s, bt);
    CancelValues(s, bt);
    ValueNot(s.assigns, c[0]);
    ValueNot(t.assigns, c[0]);
    forall k | 1 <= k < |c| ensures Value(t.assigns, c[k]) == LFalse {
      ValueNot(s.assigns, c[k]);
      ValueNot(t.assigns, c[k]);
    }
  }

  /** The state after learning c: the clause is attached and its first literal follows from it. */
  function Learn(s: State, c: Clause): State
    requires |c| >= 2 && c[0].Not() in s.watches && c[1].Not() in s.watches
    requires c[0].Not() in s.watchesBin && c[1].Not() in s.watchesBin
    requires c[0].v < |s.assigns| == |s.vardata|
  {
    Enqueue(AttachNew(s, c), c[0], |s.ca|)
  }

  ghost predicate Learnable(s: State, c: Clause) {
    && ClauseShape(c, |s.vardata|) && Attachable(s, c)
    && c[0].v < |s.assigns| == |s.vardata|
    && Value(s.assigns, c[0]) == LUndef
    && (forall k :: 1 <= k < |c| ==> Value(s.assigns, c[k]) == LFalse)
    && Level(s.vardata, c[1].v) == |s.trailLim|
  }

  lemma LearnKeepsTrail(s: State, c: Clause)
    requires TrailInv(s) && Learnable(s, c)
    ensures TrailInv(Learn(s, c))
    ensures forall m :: Models(Learn(s, c), m) <==> Models(s, m) && ClauseTrue(m, c)
    ensures UnitFor(AttachNew(s, c), c[0], |s.ca|)
  {
    var u := AttachNew(s, c);
    AttachKeepsTrail(s, c);
    assert u.ca[|s.ca|] == c && c[0] in c;
    forall l | l in c && l != c[0] ensures Value(u.assigns, l) == LFalse {
      var k :| 0 <= k < |c| && c[k] == l;
    }
    EnqueueKeepsTrail(u, c[0], |s.ca|);
    forall m ensures Models(Learn(s, c), m) <==> Models(s, m) && ClauseTrue(m, c) {
      EnqueueKeepsModels(u, c[0], |s.ca|, m);
    }
  }

  /** What is true stays true by the same level, and the asserting literal is true by the current one. */
  lemma LearnValues(s: State, c: Clause)
    requires TrailInv(s) && Learnable(s, c)
    ensures forall l, lv :: TrueBy(s, l, lv) ==> TrueBy(Learn(s, c), l, lv)
    ensures TrueBy(Learn(s, c), c[0], |s.trailLim|)
    ensures forall i :: 0 <= i < |s.trail| ==> s.trail[i].v != c[0].v
  {
    var u := AttachNew(s, c);
    AttachKeepsTrail(s, c);
    EnqueueKeepsValues(u, c[0], |s.ca|);
  }

  lemma LearnWatcherOk(s: State, t: State, c: Clause, p: Lit, w: Watcher)
    requires WatcherOk(s, p, w) && s.ca <= t.ca && w.cref < |s.ca|
    requires forall l, lv :: TrueBy(s, l, lv) ==> TrueBy(t, l, lv)
    requires Level(t.vardata, p.v) == Level(s.vardata, p.v)
    ensures WatcherOk(t, p, w)
  {
    assert t.ca[w.cref] == s.ca[w.cref];
  }

  lemma LearnLong(s: State, c: Clause, p: Lit)
    requires TrailInv(s) && Learnable(s, c) && p in s.trail && LongDone(s, p)
    requires forall k :: 0 <= k < |s.watches[p]| ==> s.watches[p][k].cref < |s.ca|
    ensures LongDone(Learn(s, c), p)
  {
    var t := Learn(s, c);
    LearnValues(s, c);
    ValueNot(s.assigns, c[0]);
    assert t.ca == s.ca + [c] && t.ca[|s.ca|] == c;
    forall k | 0 <= k < |t.watches[p]| ensures WatcherOk(t, p, t.watches[p][k]) {
      if k < |s.watches[p]| {
        LearnWatcherOk(s, t, c, p, s.watches[p][k]);
      } else {
        assert p == c[1].Not() && t.watches[p][k] == Watcher(|s.ca|, c[0]);
      }
    }
  }

  lemma LearnBinary(s: State, c: Clause, p: Lit)
    requires TrailInv(s) && Learnable(s, c) && p in s.trail && BinaryDone(s, p)
    ensures BinaryDone(Learn(s, c), p)
  {
    var t := Learn(s, c);
    LearnValues(s, c);
    ValueNot(s.assigns, c[0]);
    forall k | 0 <= k < |t.watchesBin[p]| ensures TrueBy(t, t.watchesBin[p][k].blocker, Level(t.vardata, p.v)) {
      if k >= |s.watchesBin[p]| {
        assert p == c[1].Not() && t.watchesBin[p][k] == Watcher(|s.ca|, c[0]);
      }
    }
  }

  /** Learning an asserting clause keeps the invariant of the engine. */
  lemma LearnKeepsInvariant(s: State, c: Clause)
    requires SolverInv(s, |s.trailLim| + 1) && s.qhead == |s.trail| && Learnable(s, c)
    ensures SolverInv(Learn(s, c), |s.trailLim| + 1)
  {
    var u, t := AttachNew(s, c), Learn(s, c);
    LearnKeepsTrail(s, c);
    AttachKeepsShape(s, c);
    AttachKeepsAttached(s, c);
    EnqueueKeepsShape(u, c[0], |s.ca|);
    forall i | 0 <= i < s.qhead ensures LongDone(t, t.trail[i]) && BinaryDone(t, t.trail[i]) {
      LearnAt(s, c, i);
    }
  }

  lemma LearnAt(s: State, c: Clause, i: nat)
    requires SolverInv(s, |s.trailLim| + 1) && s.qhead == |s.trail| && Learnable(s, c) && i < |s.trail|
    ensures Learn(s, c).trail[i] == s.trail[i]
    ensures LongDone(Learn(s, c), s.trail[i]) && BinaryDone(Learn(s, c), s.trail[i])
  {
    var p := s.trail[i];
    PositionLevel(s, i);
    assert LongDone(s, p) && BinaryDone(s, p) && ListShape(s, p, s.watches[p]);
    forall k | 0 <= k < |s.watches[p]| ensures s.watches[p][k].cref < |s.ca| {
      assert WatcherShape(s, p, s.watches[p][k]);
    }
    LearnLong(s, c, p);
    LearnBinary(s, c, p);
  }

  /** A unit learnt clause becomes a fact of level 0. */
  lemma UnitKeepsInvariant(s: State, p: Lit)
    requires SolverInv(s, 1) && |s.trailLim| == 0 && p.v < |s.vardata| && Value(s.assigns, p) == LUndef
    ensures SolverInv(Enqueue(s, p, NO_REASON), 1)
    ensures forall m :: Models(Enqueue(s, p, NO_REASON), m) <==> Models(s, m) && LitTrue(m, p)
  {
    var t := Enqueue(s, p, NO_REASON);
    EnqueueKeepsTrail(s, p, NO_REASON);
    EnqueueKeepsShape(s, p, NO_REASON);
    EnqueueKeepsPropagated(s, p, NO_REASON, s.qhead, 1);
    EnqueueKeepsValues(s, p, NO_REASON);
    assert t.trail[|s.trail|] == p;
    forall m ensures Models(t, m) <==> Models(s, m) && LitTrue(m, p) {
      assert forall i :: 0 <= i < |s.trail| ==> t.trail[i] == s.trail[i] && Level(t.vardata, s.trail[i].v) == Level(s.vardata, s.trail[i].v);
      if Models(t, m) {
        assert LitTrue(m, t.trail[|s.trail|]);
        forall i | 0 <= i < |s.trail| && Level(s.vardata, s.trail[i].v) == 0 ensures LitTrue(m, s.trail[i]) {
          assert LitTrue(m, t.trail[i]);
        }
      }
    }
  }

  // ------------------------------------------------------- opening a level

  function NewLevel(s: State): State { s.(trailLim := s.trailLim + [|s.trail|]) }

  lemma NewLevelTrail(s: State)
    requires TrailInv(s) && s.qhead == |s.trail|
    ensures TrailInv(NewLevel(s)) && forall m :: Models(NewLevel(s), m) <==> Models(s, m)
  {
    var t := NewLevel(s);
    assert forall k :: 0 <= k < |s.trailLim| ==> t.trailLim[k] == s.trailLim[k];
    forall i | 0 <= i < |t.trail| ensures ReasonAt(t, i) && InLevel(t, i, Level(t.vardata, t.trail[i].v)) {
      assert ReasonAt(s, i) && InLevel(s, i, Level(s.vardata, s.trail[i].v));
    }
  }

  lemma NewLevelKeepsInvariant(s: State)
    requires SolverInv(s, |s.trailLim| + 1) && s.qhead == |s.trail|
    ensures SolverInv(NewLevel(s), |s.trailLim| + 2)
  {
    var t := NewLevel(s);
    NewLevelTrail(s);
    SameLists(s, t);
    forall i | 0 <= i < t.qhead ensures LongDone(t, t.trail[i]) && BinaryDone(t, t.trail[i]) {
      PositionLevel(s, i);
      assert LongDone(s, s.trail[i]) && BinaryDone(s, s.trail[i]);
      forall k | 0 <= k < |s.watches[s.trail[i]]| ensures WatcherOk(t, s.trail[i], s.watches[s.trail[i]][k]) {
        assert WatcherOk(s, s.trail[i], s.watches[s.trail[i]][k]);
      }
    }
  }

  /** The shape of the lists depends on the arena and the lists only. */
  lemma SameLists(s: State, t: State)
    requires t.ca == s.ca && t.watches == s.watches && t.watchesBin == s.watchesBin && |t.vardata| == |s.vardata|
    requires WatchShape(s) && AllAttached(s)
    ensures WatchShape(t) && AllAttached(t)
  {
    forall p | p in t.watches ensures ListShape(t, p, t.watches[p]) {
      assert ListShape(s, p, s.watches[p]);
      forall k | 0 <= k < |s.watches[p]| ensures WatcherShape(t, p, s.watches[p][k]) {
        assert WatcherShape(s, p, s.watches[p][k]);
      }
    }
    forall p, k | p in t.watchesBin && 0 <= k < |t.watchesBin[p]| ensures BinaryShape(t, p, t.watchesBin[p][k]) {
      assert BinaryShape(s, p, s.watchesBin[p][k]);
    }
    forall k | 0 <= k < |t.ca| ensures Attached(t, k) { assert Attached(s, k); }
  }

  /** Deciding p: a new level that p opens. */
  lemma DecideKeepsInvariant(s: State, p: Lit)
    requires SolverInv(s, |s.trailLim| + 1) && s.qhead == |s.trail|
    requires p.v < |s.assigns| == |s.vardata| && Value(s.assigns, p) == LUndef
    ensures SolverInv(Enqueue(NewLevel(s), p, NO_REASON), |s.trailLim| + 2)
    ensures forall m :: Models(Enqueue(NewLevel(s), p, NO_REASON), m) <==> Models(s, m)
  {
    var u := NewLevel(s);
    NewLevelKeepsInvariant(s);
    NewLevelTrail(s);
    EnqueueKeepsTrail(u, p, NO_REASON);
    EnqueueKeepsShape(u, p, NO_REASON);
    EnqueueKeepsPropagated(u, p, NO_REASON, u.qhead, |s.trailLim| + 2);
    forall m ensures Models(Enqueue(u, p, NO_REASON), m) <==> Models(s, m) {
      EnqueueKeepsModels(u, p, NO_REASON, m);
    }
  }

  // ------------------------------------------------------- assumptions

  ghost function LevelEnd(s: State, k: nat): nat
    requires k < |s.trailLim|
  {
    if k + 1 < |s.trailLim| then s.trailLim[k + 1] else |s.trail|
  }

  /** The first levels belong to the assumptions, one level each; later levels are not empty. */
  ghost predicate AssumptionsOk(s: State, a: seq<Lit>) {
    && (forall k :: 0 <= k < |s.trailLim| && k < |a| ==> TrueBy(s, a[k], k + 1))
    && (forall i :: 0 <= i < |s.trail| ==> DecisionOk(s, a, i))
    && (forall k :: |a| <= k < |s.trailLim| ==> s.trailLim[k] < LevelEnd(s, k))
  }

  /** A literal without a reason in one of the first levels is the assumption of that level. */
  ghost predicate DecisionOk(s: State, a: seq<Lit>, i: nat)
    requires i < |s.trail|
  {
    var lv := Level(s.vardata, s.trail[i].v);
    Reason(s.vardata, s.trail[i].v) == NO_REASON && 0 < lv <= |a| ==> s.trail[i] == a[lv - 1]
  }

  lemma ExtendsKeepsAssumptions(s: State, t: State, a: seq<Lit>)
    requires TrailValues(s) && AssumptionsOk(s, a) && Extends(s, t)
    ensures AssumptionsOk(t, a)
  {
    forall k | 0 <= k < |t.trailLim| && k < |a| ensures TrueBy(t, a[k], k + 1) {
      assert TrueBy(s, a[k], k + 1);
      var i :| 0 <= i < |s.trail| && s.trail[i] == a[k];
      assert Kept(s, t, s.trail[i].v);
    }
    forall i | 0 <= i < |t.trail| ensures DecisionOk(t, a, i) {
      if i < |s.trail| {
        assert DecisionOk(s, a, i) && Kept(s, t, s.trail[i].v) && t.trail[i] == s.trail[i];
      }
    }
    forall k | |a| <= k < |t.trailLim| ensures t.trailLim[k] < LevelEnd(t, k) {
      assert s.trailLim[k] < LevelEnd(s, k);
    }
  }

  lemma CancelKeepsAssumptions(s: State, a: seq<Lit>, level: nat)
    requires TrailInv(s) && AssumptionsOk(s, a) && level < |s.trailLim|
    ensures AssumptionsOk(Cancel(s, level), a)
  {
    var t := Cancel(s, level);
    CancelValues(s, level);
    forall k | 0 <= k < level && k < |a| ensures TrueBy(t, a[k], k + 1) { assert TrueBy(s, a[k], k + 1); }
    CancelKeepsDecisions(s, a, level);
  }

  lemma CancelKeepsDecisions(s: State, a: seq<Lit>, level: nat)
    requires AssumptionsOk(s, a) && level < |s.trailLim| && s.trailLim[level] <= |s.trail|
    ensures forall i :: 0 <= i < |Cancel(s, level).trail| ==> DecisionOk(Cancel(s, level), a, i)
    ensures forall k :: |a| <= k < level ==> Cancel(s, level).trailLim[k] < LevelEnd(Cancel(s, level), k)
  {
    hide TrueBy;
    var t := Cancel(s, level);
    forall i | 0 <= i < |t.trail| ensures DecisionOk(t, a, i) { assert DecisionOk(s, a, i) && t.trail[i] == s.trail[i]; }
    forall k | |a| <= k < level ensures t.trailLim[k] < LevelEnd(t, k) { assert s.trailLim[k] < LevelEnd(s, k); }
  }

  /** Enqueuing with a reason, at level 0, or the literal that opens the current level. */
  lemma EnqueueKeepsAssumptions(s: State, a: seq<Lit>, p: Lit, from: int)
    requires TrailInv(s) && AssumptionsOk(s, a) && p.v < |s.vardata| && Value(s.assigns, p) == LUndef
    requires from == NO_REASON && 0 < |s.trailLim| <= |a| ==> p == a[|s.trailLim| - 1]
    ensures AssumptionsOk(Enqueue(s, p, from), a)
  {
    var t := Enqueue(s, p, from);
    EnqueueKeepsValues(s, p, from);
    forall k | 0 <= k < |t.trailLim| && k < |a| ensures TrueBy(t, a[k], k + 1) { assert TrueBy(s, a[k], k + 1); }
    forall i | 0 <= i < |t.trail| ensures DecisionOk(t, a, i) {
      if i < |s.trail| { assert DecisionOk(s, a, i) && t.trail[i] == s.trail[i]; }
    }
    forall k | |a| <= k < |t.trailLim| ensures t.trailLim[k] < LevelEnd(t, k) { assert s.trailLim[k] < LevelEnd(s, k); }
  }

  lemma AttachKeepsAssumptions(s: State, a: seq<Lit>, c: Clause)
    requires Attachable(s, c) && AssumptionsOk(s, a)
    ensures AssumptionsOk(AttachNew(s, c), a)
  {
    var t := AttachNew(s, c);
    forall k | 0 <= k < |t.trailLim| && k < |a| ensures TrueBy(t, a[k], k + 1) { assert TrueBy(s, a[k], k + 1); }
    forall i | 0 <= i < |t.trail| ensures DecisionOk(t, a, i) { assert DecisionOk(s, a, i); }
    forall k | |a| <= k < |t.trailLim| ensures t.trailLim[k] < LevelEnd(t, k) { assert s.trailLim[k] < LevelEnd(s, k); }
  }

  /** A dummy level for an assumption that already holds. */
  lemma DummyLevelOk(s: State, a: seq<Lit>)
    requires TrailInv(s) && AssumptionsOk(s, a) && |s.trailLim| < |a| && Value(s.assigns, a[|s.trailLim|]) == LTrue
    ensures AssumptionsOk(NewLevel(s), a)
  {
    var t, d := NewLevel(s), |s.trailLim|;
    var i :| 0 <= i < |s.trail| && s.trail[i] == a[d];
    PositionLevel(s, i);
    forall k | 0 <= k < |t.trailLim| && k < |a| ensures TrueBy(t, a[k], k + 1) {
      if k < d { assert TrueBy(s, a[k], k + 1); }
    }
    forall i | 0 <= i < |t.trail| ensures DecisionOk(t, a, i) { assert DecisionOk(s, a, i); }
  }

  lemma DecideOk(s: State, a: seq<Lit>, p: Lit)
    requires TrailInv(s) && AssumptionsOk(s, a) && s.qhead == |s.trail|
    requires p.v < |s.vardata| && Value(s.assigns, p) == LUndef
    requires |s.trailLim| < |a| ==> p == a[|s.trailLim|]
    ensures p.v < |s.assigns| && AssumptionsOk(Enqueue(NewLevel(s), p, NO_REASON), a)
  {
    var u, d := NewLevel(s), |s.trailLim|;
    var t := Enqueue(u, p, NO_REASON);
    NewLevelTrail(s);
    EnqueueKeepsValues(u, p, NO_REASON);
    forall k | 0 <= k < |t.trailLim| && k < |a| ensures TrueBy(t, a[k], k + 1) {
      if k < d { assert TrueBy(s, a[k], k + 1); }
    }
    DecideDecisions(s, a, p);
  }

  lemma DecideDecisions(s: State, a: seq<Lit>, p: Lit)
    requires TrailInv(s) && AssumptionsOk(s, a) && s.qhead == |s.trail| && p.v < |s.assigns| == |s.vardata|
    requires Value(s.assigns, p) == LUndef && (|s.trailLim| < |a| ==> p == a[|s.trailLim|])
    ensures var t := Enqueue(NewLevel(s), p, NO_REASON);
            && (forall i :: 0 <= i < |t.trail| ==> DecisionOk(t, a, i))
            && (forall k :: |a| <= k < |t.trailLim| ==> t.trailLim[k] < LevelEnd(t, k))
  {
    hide TrueBy;
    var u, d := NewLevel(s), |s.trailLim|;
    var t := Enqueue(u, p, NO_REASON);
    NewLevelTrail(s);
    EnqueueKeepsValues(u, p, NO_REASON);
    forall i | 0 <= i < |t.trail| ensures DecisionOk(t, a, i) {
      if i < |s.trail| { assert DecisionOk(s, a, i) && t.trail[i] == s.trail[i]; PositionLevel(s, i); }
    }
    forall k | |a| <= k < |t.trailLim| ensures t.trailLim[k] < LevelEnd(t, k) {
      if k < d { assert s.trailLim[k] < LevelEnd(s, k); }
    }
  }

  // ------------------------------------------------------- progress

  ghost function Ends(s: State): seq<nat> { s.trailLim + [|s.trail|] }

  ghost function Depth(s: State, a: seq<Lit>): nat { |a| + |s.vardata| + 2 }

  ghost function SearchRank(s: State, a: seq<Lit>): nat { Rank(Ends(s), Depth(s, a), |s.vardata|) }

  lemma RankBelow(s: State, a: seq<Lit>)
    ensures SearchRank(s, a) < MaxConflicts(|s.vardata|, |a|)
  {
    RankBound(Ends(s), Depth(s, a), |s.vardata|);
  }

  lemma {:induction false} IncreasingFrom(lims: seq<nat>, lo: nat, k: nat)
    requires lo <= k < |lims| && forall j :: lo <= j < |lims| - 1 ==> lims[j] < lims[j + 1]
    ensures lims[k] >= k - lo
  {
    if k > lo { IncreasingFrom(lims, lo, k - 1); }
  }

  lemma LevelsBounded(s: State, a: seq<Lit>)
    requires TrailValues(s) && TrailLevels(s) && AssumptionsOk(s, a)
    ensures |s.trailLim| <= |a| + |s.trail| <= |a| + |s.vardata|
  {
    TrailBound(s);
    var d := |s.trailLim|;
    if d > |a| {
      forall j | |a| <= j < d - 1 ensures s.trailLim[j] < s.trailLim[j + 1] {
        assert s.trailLim[j] < LevelEnd(s, j);
      }
      IncreasingFrom(s.trailLim, |a|, d - 1);
      assert s.trailLim[d - 1] < LevelEnd(s, d - 1);
    }
  }

  lemma ExtendsRank(s: State, t: State, a: seq<Lit>)
    requires TrailValues(s) && TrailLevels(s) && AssumptionsOk(s, a) && TrailValues(t) && Extends(s, t)
    ensures SearchRank(t, a) <= SearchRank(s, a)
  {
    TrailBound(t);
    LevelsBounded(s, a);
    var d := |s.trailLim|;
    if |t.trail| > |s.trail| {
      RankDrops(Ends(s), Ends(t), d, Depth(s, a), |s.vardata|);
    } else {
      assert Ends(t) == Ends(s);
    }
  }

  lemma NewLevelRank(s: State, t: State, a: seq<Lit>)
    requires TrailValues(s) && TrailLevels(s) && AssumptionsOk(s, a) && TrailValues(t)
    requires |t.vardata| == |s.vardata| && t.trailLim == s.trailLim + [|s.trail|] && |t.trail| >= |s.trail|
    ensures SearchRank(t, a) < SearchRank(s, a)
  {
    TrailBound(t);
    LevelsBounded(s, a);
    var d := |s.trailLim| + 1;
    RankDrops(Ends(s), Ends(t), d, Depth(s, a), |s.vardata|);
  }

  lemma BackjumpRank(s: State, t: State, a: seq<Lit>, bt: nat)
    requires TrailValues(s) && TrailLevels(s) && AssumptionsOk(s, a) && TrailValues(t) && bt < |s.trailLim|
    requires |t.vardata| == |s.vardata| && t.trailLim == s.trailLim[..bt] && |t.trail| == s.trailLim[bt] + 1
    ensures SearchRank(t, a) < SearchRank(s, a)
  {
    TrailBound(t);
    LevelsBounded(s, a);
    RankDrops(Ends(s), Ends(t), bt, Depth(s, a), |s.vardata|);
  }

  // ------------------------------------------------------- the final conflict

  /** In every model the clause holds, or a marked trail literal before position hi fails. */
  ghost predicate FinalCut(s: State, seen: seq<bool>, out: Clause, hi: nat) {
    forall m :: Models(s, m) ==> ClauseTrue(m, out) || BlockedBefore(s, seen, m, hi)
  }

  ghost predicate BlockedBefore(s: State, seen: seq<bool>, m: Model, hi: nat) {
    exists i :: 0 <= i < hi && i < |s.trail| && Seen(seen, s.trail[i].v) && !LitTrue(m, s.trail[i])
  }

  /** The marks of the final analysis: apart from p, variables assigned above level 0, before hi. */
  ghost predicate FinalMarks(s: State, seen: seq<bool>, p: Lit, hi: nat) {
    && |seen| == |s.vardata| && hi <= |s.trail|
    && (forall v :: Seen(seen, v) && v != p.v ==> Value(s.assigns, Lit(v, false)) != LUndef && Level(s.vardata, v) > 0)
    && (forall i :: hi <= i < |s.trail| ==> !Seen(seen, s.trail[i].v))
  }

  /** Every literal of the clause is the negation of an assumption. */
  ghost predicate NegatesAssumptions(out: Clause, a: seq<Lit>) {
    forall l :: l in out ==> l.Not() in a
  }

  lemma FinalStart(s: State, p: Lit, seen: seq<bool>)
    requires TrailInv(s) && Value(s.assigns, p) == LTrue && p.v < |s.vardata| == |seen| && forall v :: !Seen(seen, v)
    ensures FinalMarks(s, seen[p.v := true], p, |s.trail|) && FinalCut(s, seen[p.v := true], [p], |s.trail|)
  {
    var marks := seen[p.v := true];
    assert forall v :: v != p.v && Seen(marks, v) ==> Seen(seen, v);
    assert p in s.trail;
    var i :| 0 <= i < |s.trail| && s.trail[i] == p;
    forall m | Models(s, m) ensures ClauseTrue(m, [p]) || BlockedBefore(s, marks, m, |s.trail|) {
      if LitTrue(m, p) { assert p in [p]; } else { assert Seen(marks, s.trail[i].v); }
    }
  }

  lemma FinalSkip(s: State, seen: seq<bool>, p: Lit, out: Clause, hi: nat)
    requires FinalMarks(s, seen, p, hi) && FinalCut(s, seen, out, hi) && hi > 0 && !Seen(seen, s.trail[hi - 1].v)
    ensures FinalMarks(s, seen, p, hi - 1) && FinalCut(s, seen, out, hi - 1)
  {
    forall m | Models(s, m) ensures ClauseTrue(m, out) || BlockedBefore(s, seen, m, hi - 1) {
      if !ClauseTrue(m, out) {
        assert BlockedBefore(s, seen, m, hi);
        var i :| 0 <= i < hi && i < |s.trail| && Seen(seen, s.trail[i].v) && !LitTrue(m, s.trail[i]);
      }
    }
  }

  /** A marked assumption goes into the clause. */
  lemma FinalDecision(s: State, seen: seq<bool>, p: Lit, out: Clause, hi: nat)
    requires TrailInv(s) && FinalMarks(s, seen, p, hi) && FinalCut(s, seen, out, hi)
    requires 0 < hi && Seen(seen, s.trail[hi - 1].v)
    ensures var x := s.trail[hi - 1];
            x.v < |seen| && FinalMarks(s, seen[x.v := false], p, hi - 1)
            && FinalCut(s, seen[x.v := false], out + [x.Not()], hi - 1)
  {
    var x := s.trail[hi - 1];
    var after, o2 := seen[x.v := false], out + [x.Not()];
    assert o2[|out|] == x.Not();
    forall m | Models(s, m) ensures ClauseTrue(m, o2) || BlockedBefore(s, after, m, hi - 1) {
      if ClauseTrue(m, out) {
        var l :| l in out && LitTrue(m, l);
        assert l in o2;
      } else {
        assert BlockedBefore(s, seen, m, hi);
        var i :| 0 <= i < hi && i < |s.trail| && Seen(seen, s.trail[i].v) && !LitTrue(m, s.trail[i]);
        if i == hi - 1 { assert LitTrue(m, x.Not()); }
        else { assert Seen(after, s.trail[i].v); }
      }
    }
    forall v | Seen(after, v) ensures Seen(seen, v) {}
  }

  /** A marked propagated literal is replaced by the rest of its reason. */
  lemma FinalReason(s: State, seen: seq<bool>, marks: seq<bool>, p: Lit, out: Clause, hi: nat, cr: nat)
    requires TrailInv(s) && FinalMarks(s, seen, p, hi) && FinalCut(s, seen, out, hi)
    requires 0 < hi && Seen(seen, s.trail[hi - 1].v) && ReasonOk(s, hi - 1, cr)
    requires Grows(seen, marks)
    requires forall l :: l in s.ca[cr] && l != s.trail[hi - 1] ==> Covered(s, marks, l)
    requires forall v :: Seen(marks, v) && !Seen(seen, v) ==> exists l :: l in s.ca[cr] && l.v == v && Level(s.vardata, v) > 0
    ensures var x := s.trail[hi - 1];
            x.v < |marks| && FinalMarks(s, marks[x.v := false], p, hi - 1) && FinalCut(s, marks[x.v := false], out, hi - 1)
  {
    FinalReasonMarks(s, seen, marks, p, hi, cr);
    FinalReasonCut(s, seen, marks, out, hi, cr);
  }

  lemma FinalReasonMarks(s: State, seen: seq<bool>, marks: seq<bool>, p: Lit, hi: nat, cr: nat)
    requires TrailInv(s) && FinalMarks(s, seen, p, hi) && 0 < hi && ReasonOk(s, hi - 1, cr) && Grows(seen, marks)
    requires forall v :: Seen(marks, v) && !Seen(seen, v) ==> exists l :: l in s.ca[cr] && l.v == v && Level(s.vardata, v) > 0
    ensures s.trail[hi - 1].v < |marks| && FinalMarks(s, marks[s.trail[hi - 1].v := false], p, hi - 1)
  {
    var x := s.trail[hi - 1];
    var after := marks[x.v := false];
    ReasonLits(s, hi - 1, cr);
    forall v | Seen(after, v) && v != p.v ensures Value(s.assigns, Lit(v, false)) != LUndef && Level(s.vardata, v) > 0 {
      assert Seen(marks, v);
      if !Seen(seen, v) { var l :| l in s.ca[cr] && l.v == v; }
    }
    forall i, l | hi <= i < |s.trail| && l in s.ca[cr] ensures l.v != s.trail[i].v {
      assert l != x ==> InPrefix(s, l, hi - 1);
    }
  }

  lemma FinalReasonCut(s: State, seen: seq<bool>, marks: seq<bool>, out: Clause, hi: nat, cr: nat)
    requires TrailInv(s) && FinalCut(s, seen, out, hi) && 0 < hi <= |s.trail| && ReasonOk(s, hi - 1, cr)
    requires Grows(seen, marks) && s.trail[hi - 1].v < |marks|
    requires forall l :: l in s.ca[cr] && l != s.trail[hi - 1] ==> Covered(s, marks, l)
    ensures FinalCut(s, marks[s.trail[hi - 1].v := false], out, hi - 1)
  {
    hide ReasonOk;
    var after := marks[s.trail[hi - 1].v := false];
    forall m | Models(s, m) ensures ClauseTrue(m, out) || BlockedBefore(s, after, m, hi - 1) {
      if !ClauseTrue(m, out) {
        assert BlockedBefore(s, seen, m, hi);
        var i :| 0 <= i < hi && i < |s.trail| && Seen(seen, s.trail[i].v) && !LitTrue(m, s.trail[i]);
        if i < hi - 1 { assert Seen(marks, s.trail[i].v) && Seen(after, s.trail[i].v); }
        else { FinalReasonModel(s, marks, m, hi, cr); }
      }
    }
  }

  ghost predicate InPrefix(s: State, l: Lit, hi: nat) {
    exists j :: 0 <= j < hi && j < |s.trail| && s.trail[j] == l.Not()
  }

  lemma ReasonLits(s: State, i: nat, cr: nat)
    requires TrailInv(s) && i < |s.trail| && ReasonOk(s, i, cr)
    ensures forall l :: l in s.ca[cr] && l != s.trail[i] ==> InPrefix(s, l, i) && Value(s.assigns, l) == LFalse
    ensures Value(s.assigns, s.trail[i]) == LTrue
  {
    forall l | l in s.ca[cr] && l != s.trail[i] ensures InPrefix(s, l, i) && Value(s.assigns, l) == LFalse {
      var k :| 0 <= k < i && s.trail[..i][k] == l.Not();
      assert s.trail[k] == l.Not();
      ValueNot(s.assigns, l);
    }
  }

  lemma LevelZeroHolds(s: State, m: Model, j: nat)
    requires Models(s, m) && j < |s.trail|
    ensures Level(s.vardata, s.trail[j].v) == 0 ==> LitTrue(m, s.trail[j])
  {}

  lemma FinalReasonModel(s: State, marks: seq<bool>, m: Model, hi: nat, cr: nat)
    requires TrailInv(s) && 0 < hi <= |s.trail| && ReasonOk(s, hi - 1, cr) && s.trail[hi - 1].v < |marks|
    requires Models(s, m) && !LitTrue(m, s.trail[hi - 1])
    requires forall l :: l in s.ca[cr] && l != s.trail[hi - 1] ==> Covered(s, marks, l)
    ensures BlockedBefore(s, marks[s.trail[hi - 1].v := false], m, hi - 1)
  {
    var x := s.trail[hi - 1];
    ReasonLits(s, hi - 1, cr);
    assert ClauseTrue(m, s.ca[cr]);
    var l :| l in s.ca[cr] && LitTrue(m, l);
    var j :| 0 <= j < hi - 1 && j < |s.trail| && s.trail[j] == l.Not();
    LevelZeroHolds(s, m, j);
    TrailDistinct(s, j, hi - 1);
    assert Seen(marks[x.v := false], s.trail[j].v);
  }

  lemma TrailDistinct(s: State, i: nat, j: nat)
    requires TrailValues(s) && i < j < |s.trail|
    ensures s.trail[i].v != s.trail[j].v
  {}

  ghost predicate NoMarks(seen: seq<bool>) {
    forall v :: !Seen(seen, v)
  }

  lemma FinalEnd(s: State, seen: seq<bool>, p: Lit, out: Clause)
    requires TrailInv(s) && |s.trailLim| > 0 && p.v < |seen|
    requires FinalMarks(s, seen, p, s.trailLim[0]) && FinalCut(s, seen, out, s.trailLim[0])
    ensures Implied(s, out) && NoMarks(seen[p.v := false])
  {
    forall i | 0 <= i < s.trailLim[0] ensures Level(s.vardata, s.trail[i].v) == 0 {
      assert InLevel(s, i, Level(s.vardata, s.trail[i].v));
    }
    forall m | Models(s, m) ensures ClauseTrue(m, out) {
      assert !BlockedBefore(s, seen, m, s.trailLim[0]);
    }
    forall v | v != p.v ensures !Seen(seen, v) {
      if Value(s.assigns, Lit(v, false)) != LUndef {
        var i := PositionOf(s, v);
      }
    }
    var after := seen[p.v := false];
    forall v ensures !Seen(after, v) { assert Seen(after, v) ==> Seen(seen, v) && v != p.v; }
  }

  lemma PositionOf(s: State, v: nat) returns (i: nat)
    requires TrailValues(s) && Value(s.assigns, Lit(v, false)) != LUndef
    ensures i < |s.trail| && s.trail[i].v == v
  {
    var l := if Value(s.assigns, Lit(v, false)) == LTrue then Lit(v, false) else Lit(v, true);
    assert l in s.trail;
    i :| 0 <= i < |s.trail| && s.trail[i] == l;
  }

  // ------------------------------------------------------- answers

  /** The state has exactly the models of the formula. */
  ghost predicate Represents(f: seq<Clause>, s: State) {
    forall m :: FormulaTrue(m, f) <==> Models(s, m)
  }

  ghost predicate AllTrue(m: Model, a: seq<Lit>) {
    forall l :: l in a ==> LitTrue(m, l)
  }

  /** The formula has no model that satisfies the assumptions. */
  ghost predicate Refuted(f: seq<Clause>, a: seq<Lit>) {
    forall m :: FormulaTrue(m, f) ==> !AllTrue(m, a)
  }

  ghost predicate Entails(f: seq<Clause>, c: Clause) {
    forall m :: FormulaTrue(m, f) ==> ClauseTrue(m, c)
  }

  function ModelOf(assigns: seq<LBool>): Model {
    (v: nat) => v < |assigns| && assigns[v] == LTrue
  }

  /** Every unassigned variable can still be picked. */
  ghost predicate HeapOk(s: State, heap: set<nat>) {
    forall v: nat :: v < |s.vardata| && Value(s.assigns, Lit(v, false)) == LUndef ==> v in heap
  }

  ghost predicate SearchInv(s: State, f: seq<Clause>, a: seq<Lit>) {
    && SolverInv(s, |s.trailLim| + 1)
    && AssumptionsOk(s, a)
    && Represents(f, s)
    && forall l :: l in a ==> l.v < |s.vardata|
  }

  /** A falsified clause at level 0 refutes the formula itself. */
  lemma ConflictAtRoot(s: State, f: seq<Clause>, confl: nat)
    requires TrailInv(s) && Represents(f, s) && |s.trailLim| == 0 && ConflictClause(s, confl)
    ensures Entails(f, [])
  {
    forall m, l | Models(s, m) && l in s.ca[confl] ensures !LitTrue(m, l) {
      var k := FalseOnTrail(s, l);
      assert InLevel(s, k, Level(s.vardata, l.v));
    }
    forall m ensures !FormulaTrue(m, f) {
      assert Models(s, m) ==> ClauseTrue(m, s.ca[confl]);
    }
  }

  lemma EntailedConflictRefutes(f: seq<Clause>, a: seq<Lit>, c: Clause)
    requires Entails(f, c) && NegatesAssumptions(c, a)
    ensures Refuted(f, a)
  {
    forall m | FormulaTrue(m, f) ensures !AllTrue(m, a) {
      assert ClauseTrue(m, c);
      var l :| l in c && LitTrue(m, l);
      assert l.Not() in a && !LitTrue(m, l.Not());
    }
  }

  /** A settled clause without unassigned literals has a true one. */
  lemma TrueLiteral(s: State, c: Clause) returns (l: Lit)
    requires Settled(s, c) && forall l :: l in c ==> Value(s.assigns, l) != LUndef
    ensures l in c && Value(s.assigns, l) == LTrue
  {
    if i, j :| 0 <= i < j < |c| && Value(s.assigns, c[i]) != LFalse && Value(s.assigns, c[j]) != LFalse {
      l := c[i];
    } else {
      l :| l in c && Value(s.assigns, l) == LTrue;
    }
  }

  /** A complete, fully propagated trail is a model of the formula and of the assumptions. */
  lemma CompleteTrailIsModel(s: State, f: seq<Clause>, a: seq<Lit>)
    requires SearchInv(s, f, a) && s.qhead == |s.trail| && |s.trailLim| >= |a|
    requires forall v: nat :: v < |s.vardata| ==> Value(s.assigns, Lit(v, false)) != LUndef
    ensures FormulaTrue(ModelOf(s.assigns), f) && AllTrue(ModelOf(s.assigns), a)
  {
    var m := ModelOf(s.assigns);
    forall l: Lit | Value(s.assigns, l) == LTrue ensures LitTrue(m, l) {}
    FullyPropagated(s);
    forall cr | 0 <= cr < |s.ca| ensures ClauseTrue(m, s.ca[cr]) {
      var c := s.ca[cr];
      assert Settled(s, c) && ClauseShape(c, |s.vardata|);
      forall l | l in c ensures Value(s.assigns, l) != LUndef { assert Value(s.assigns, Lit(l.v, false)) != LUndef; }
      var l := TrueLiteral(s, c);
      assert LitTrue(m, l);
    }
    forall i | 0 <= i < |s.trail| ensures LitTrue(m, s.trail[i]) {}
    assert Models(s, m);
    forall l | l in a ensures LitTrue(m, l) {
      var k :| 0 <= k < |a| && a[k] == l;
      assert TrueBy(s, a[k], k + 1);
    }
  }

  // ------------------------------------------------------- the search invariant, step by step

  lemma PropagationKeepsSearch(s: State, t: State, f: seq<Clause>, a: seq<Lit>)
    requires SearchInv(s, f, a) && Extends(s, t) && SolverInv(t, |t.trailLim| + 1)
    ensures SearchInv(t, f, a) && SearchRank(t, a) <= SearchRank(s, a)
  {
    ExtendsKeepsAssumptions(s, t, a);
    ExtendsRank(s, t, a);
  }

  /** A conflict has been analysed: u extends s, and c is asserting in u. */
  ghost predicate Analysed(s: State, u: State, f: seq<Clause>, a: seq<Lit>, c: Clause, bt: nat) {
    && SearchInv(s, f, a) && Extends(s, u) && SolverInv(u, |u.trailLim|)
    && |u.trailLim| > 0 && Asserting(u, c, bt)
  }

  /** The state after backjumping is ready to learn c, and already fully propagated. */
  lemma Backjumped(s: State, u: State, f: seq<Clause>, a: seq<Lit>, c: Clause, bt: nat)
    requires Analysed(s, u, f, a, c, bt)
    ensures bt < |u.trailLim| && u.trailLim[bt] <= |u.trail|
    ensures var w := Cancel(u, bt);
            && SolverInv(w, bt + 1) && AssumptionsOk(w, a) && Represents(f, w) && Implied(w, c)
            && c[0].v < |w.assigns| == |w.vardata| && Value(w.assigns, c[0]) == LUndef
            && (forall k :: 1 <= k < |c| ==> Value(w.assigns, c[k]) == LFalse)
  {
    ExtendsKeepsAssumptions(s, u, a);
    AssertingBelow(u, c, bt);
    var w := Cancel(u, bt);
    CancelKeepsInvariant(u, bt);
    CancelKeepsAssumptions(u, a, bt);
    AssertingAfterCancel(u, c, bt);
    forall m ensures Models(w, m) <==> Models(u, m) { CancelKeepsModels(u, bt, m); }
  }

  lemma AssertingBelow(u: State, c: Clause, bt: nat)
    requires TrailInv(u) && Asserting(u, c, bt) && |u.trailLim| > 0
    ensures bt < |u.trailLim|
  {}

  lemma LearnUnit(s: State, u: State, f: seq<Clause>, a: seq<Lit>, c: Clause, bt: nat)
    requires Analysed(s, u, f, a, c, bt) && |c| == 1
    ensures bt < |u.trailLim| && u.trailLim[bt] <= |u.trail| && c[0].v < |Cancel(u, bt).assigns| == |Cancel(u, bt).vardata|
    ensures var t := Enqueue(Cancel(u, bt), c[0], NO_REASON);
            SearchInv(t, f, a) && SearchRank(t, a) < SearchRank(s, a)
  {
    Backjumped(s, u, f, a, c, bt);
    var w := Cancel(u, bt);
    var t := Enqueue(w, c[0], NO_REASON);
    UnitKeepsInvariant(w, c[0]);
    EnqueueKeepsAssumptions(w, a, c[0], NO_REASON);
    forall m ensures Models(t, m) <==> Models(w, m) {
      assert Models(w, m) ==> ClauseTrue(m, c);
    }
    BackjumpRank(s, t, a, bt);
  }

  lemma LearnClause(s: State, u: State, f: seq<Clause>, a: seq<Lit>, c: Clause, bt: nat)
    requires Analysed(s, u, f, a, c, bt) && |c| > 1
    ensures bt < |u.trailLim| && u.trailLim[bt] <= |u.trail| && Learnable(Cancel(u, bt), c)
    ensures var t := Learn(Cancel(u, bt), c);
            SearchInv(t, f, a) && SearchRank(t, a) < SearchRank(s, a)
  {
    hide Learnable, Represents, AssumptionsOk, Implied, SolverInv, TrailInv, TrailValues, TrailLevels, Learn, Cancel,
         WatchShape, Analysed;
    Backjumped(s, u, f, a, c, bt);
    BackjumpReady(s, u, f, a, c, bt);
    var w := Cancel(u, bt);
    BackjumpLearnable(u, w, c, bt);
    LearnResult(w, f, a, c);
    LearnLengths(w, c);
    SearchInvFacts(Learn(w, c), f, a);
    BackjumpRank(s, Learn(w, c), a, bt);
  }

  lemma SearchInvFacts(t: State, f: seq<Clause>, a: seq<Lit>)
    requires SearchInv(t, f, a)
    ensures TrailValues(t)
  {}

  lemma LearnLengths(w: State, c: Clause)
    requires Learnable(w, c)
    ensures var t := Learn(w, c);
            |t.vardata| == |w.vardata| && t.trailLim == w.trailLim && |t.trail| == |w.trail| + 1
  {}

  /** What is needed of the states before and after a backjump. */
  lemma BackjumpReady(s: State, u: State, f: seq<Clause>, a: seq<Lit>, c: Clause, bt: nat)
    requires Analysed(s, u, f, a, c, bt) && bt < |u.trailLim| && u.trailLim[bt] <= |u.trail|
    requires SolverInv(Cancel(u, bt), bt + 1)
    ensures TrailInv(u) && Asserting(u, c, bt) && WatchShape(Cancel(u, bt))
    ensures TrailValues(s) && TrailLevels(s) && AssumptionsOk(s, a) && bt < |s.trailLim|
    ensures forall l :: l in a ==> l.v < |s.vardata|
    ensures var w := Cancel(u, bt);
            && |w.vardata| == |s.vardata| && w.trailLim == s.trailLim[..bt] && |w.trail| == s.trailLim[bt] == w.qhead
            && |w.trailLim| == bt
  {}

  lemma LearnResult(w: State, f: seq<Clause>, a: seq<Lit>, c: Clause)
    requires SolverInv(w, |w.trailLim| + 1) && AssumptionsOk(w, a) && Represents(f, w) && Implied(w, c)
    requires Learnable(w, c) && w.qhead == |w.trail| && forall l :: l in a ==> l.v < |w.vardata|
    ensures SearchInv(Learn(w, c), f, a)
  {
    hide SolverInv;
    SolverInvFacts(w, |w.trailLim| + 1);
    LearnKeepsInvariant(w, c);
    LearnKeepsTrail(w, c);
    LearnKeepsAssumptions(w, a, c);
  }

  lemma LearnKeepsAssumptions(w: State, a: seq<Lit>, c: Clause)
    requires TrailInv(w) && AssumptionsOk(w, a) && Learnable(w, c)
    ensures AssumptionsOk(Learn(w, c), a)
  {
    AttachKeepsTrail(w, c);
    AttachKeepsAssumptions(w, a, c);
    EnqueueKeepsAssumptions(AttachNew(w, c), a, c[0], |w.ca|);
  }

  lemma BackjumpLearnable(u: State, w: State, c: Clause, bt: nat)
    requires TrailInv(u) && Asserting(u, c, bt) && |c| > 1 && bt < |u.trailLim| && w == Cancel(u, bt)
    requires WatchShape(w) && c[0].v < |w.assigns| == |w.vardata| && Value(w.assigns, c[0]) == LUndef
    requires forall k :: 1 <= k < |c| ==> Value(w.assigns, c[k]) == LFalse
    ensures Learnable(w, c)
  {
    forall l | l in c ensures l.v < |w.vardata| {
      var k :| 0 <= k < |c| && c[k] == l;
    }
    CanAttach(w, c);
  }

  lemma HeapExtends(s: State, t: State, heap: set<nat>)
    requires HeapOk(s, heap) && Extends(s, t)
    ensures HeapOk(t, heap)
  {}

  lemma HeapCancel(s: State, level: nat, heap: set<nat>, after: set<nat>)
    requires TrailInv(s) && HeapOk(s, heap) && level < |s.trailLim| && s.trailLim[level] <= |s.trail|
    requires forall v :: v in heap || VarIn(s.trail[s.trailLim[level]..], v) ==> v in after
    ensures HeapOk(Cancel(s, level), after)
  {
    var t := Cancel(s, level);
    forall v: nat | v < |t.vardata| && Value(t.assigns, Lit(v, false)) == LUndef ensures v in after {
      if Value(s.assigns, Lit(v, false)) != LUndef {
        assert VarIn(s.trail[s.trailLim[level]..], v);
      }
    }
  }

  lemma HeapEnqueue(s: State, p: Lit, from: int, heap: set<nat>)
    requires p.v < |s.assigns| == |s.vardata| && HeapOk(s, heap)
    ensures HeapOk(Enqueue(s, p, from), heap)
  {
    var t := Enqueue(s, p, from);
    assert forall v: nat :: Value(t.assigns, Lit(v, false)) == LUndef ==> Value(s.assigns, Lit(v, false)) == LUndef;
  }

  lemma LearnableFacts(w: State, c: Clause, heap: set<nat>)
    requires Learnable(w, c) && HeapOk(w, heap)
    ensures Attachable(w, c) && |c| >= 2 && c[0].v < |w.assigns| == |w.vardata|
    ensures HeapOk(AttachNew(w, c), heap)
  {}

  /** The loop of the final analysis: the clause so far, built from negated assumptions. */
  ghost predicate FinalInv(s: State, seen: seq<bool>, p: Lit, out: Clause, hi: nat, a: seq<Lit>) {
    FinalMarks(s, seen, p, hi) && FinalCut(s, seen, out, hi) && NegatesAssumptions(out, a)
  }

  lemma FinalLit(s: State, seen: seq<bool>, p: Lit, out: Clause, hi: nat, a: seq<Lit>)
    requires TrailInv(s) && AssumptionsOk(s, a) && |s.trailLim| <= |a|
    requires FinalInv(s, seen, p, out, hi, a) && |s.trailLim| > 0 && s.trailLim[0] < hi && Seen(seen, s.trail[hi - 1].v)
    requires Reason(s.vardata, s.trail[hi - 1].v) == NO_REASON
    ensures var x := s.trail[hi - 1]; x.v < |seen| && FinalInv(s, seen[x.v := false], p, out + [x.Not()], hi - 1, a)
  {
    var x := s.trail[hi - 1];
    FinalDecision(s, seen, p, out, hi);
    assert InLevel(s, hi - 1, Level(s.vardata, x.v));
    assert DecisionOk(s, a, hi - 1);
    assert x.Not().Not() == x;
  }

  lemma FinalReasonFacts(s: State, i: nat)
    requires TrailInv(s) && i < |s.trail| && Reason(s.vardata, s.trail[i].v) != NO_REASON
    ensures ReasonOk(s, i, Reason(s.vardata, s.trail[i].v))
    ensures var c := s.ca[Reason(s.vardata, s.trail[i].v)];
            && |c| >= 2 && (forall k :: 0 <= k < |c| ==> c[k].v < |s.vardata|)
            && (|c| > 2 ==> c[0] == s.trail[i])
  {
    assert ReasonAt(s, i);
    ClauseVars(s, Reason(s.vardata, s.trail[i].v));
    assert ClauseShape(s.ca[Reason(s.vardata, s.trail[i].v)], |s.vardata|);
  }

  lemma FinalInvParts(s: State, seen: seq<bool>, p: Lit, out: Clause, hi: nat, a: seq<Lit>)
    requires FinalInv(s, seen, p, out, hi, a)
    ensures FinalMarks(s, seen, p, hi) && FinalCut(s, seen, out, hi) && NegatesAssumptions(out, a)
  {}

  lemma FinalInvJoin(s: State, seen: seq<bool>, p: Lit, out: Clause, hi: nat, a: seq<Lit>)
    requires FinalMarks(s, seen, p, hi) && FinalCut(s, seen, out, hi) && NegatesAssumptions(out, a)
    ensures FinalInv(s, seen, p, out, hi, a)
  {}

  lemma TrailVar(s: State, i: nat)
    requires TrailInv(s) && i < |s.trail|
    ensures s.trail[i].v < |s.vardata|
  {}

  lemma LimBound(s: State)
    requires TrailInv(s) && |s.trailLim| > 0
    ensures s.trailLim[0] <= |s.trail|
  {}

  lemma RootFact(s: State, p: Lit)
    requires TrailInv(s) && |s.trailLim| == 0 && Value(s.assigns, p) == LTrue
    ensures Implied(s, [p])
  {
    assert p in s.trail;
    var i :| 0 <= i < |s.trail| && s.trail[i] == p;
    PositionLevel(s, i);
    forall m | Models(s, m) ensures ClauseTrue(m, [p]) {
      assert LitTrue(m, s.trail[i]) && p in [p];
    }
  }

  /** What an answer of the search promises. */
  datatype Status = Satisfiable | Unsatisfiable | Unknown | Undecided

  ghost predicate Correct(r: Status, assigns: seq<LBool>, conflict: Clause, f: seq<Clause>, a: seq<Lit>) {
    match r
    case Satisfiable => FormulaTrue(ModelOf(assigns), f) && AllTrue(ModelOf(assigns), a)
    case Unsatisfiable => Entails(f, conflict) && NegatesAssumptions(conflict, a)
    case Unknown => true
    case Undecided => true
  }

  lemma ImpliedIsEntailed(s: State, f: seq<Clause>, a: seq<Lit>, c: Clause)
    requires SearchInv(s, f, a) && Implied(s, c)
    ensures Entails(f, c)
  {}

  lemma SearchFacts(s: State, f: seq<Clause>, a: seq<Lit>)
    requires SearchInv(s, f, a)
    ensures SolverInv(s, |s.trailLim| + 1) && TrailInv(s) && AssumptionsOk(s, a) && Represents(f, s)
    ensures |s.assigns| == |s.vardata| && forall l :: l in a ==> l.v < |s.vardata|
  {}

  lemma DummyStep(s: State, f: seq<Clause>, a: seq<Lit>, heap: set<nat>)
    requires SearchInv(s, f, a) && s.qhead == |s.trail| && HeapOk(s, heap)
    requires |s.trailLim| < |a| && Value(s.assigns, a[|s.trailLim|]) == LTrue
    ensures SearchInv(NewLevel(s), f, a) && HeapOk(NewLevel(s), heap) && SearchRank(NewLevel(s), a) < SearchRank(s, a)
  {
    DummyLevelOk(s, a);
    NewLevelKeepsInvariant(s);
    NewLevelTrail(s);
    NewLevelRank(s, NewLevel(s), a);
  }

  lemma DecideStep(s: State, f: seq<Clause>, a: seq<Lit>, p: Lit, heap: set<nat>)
    requires SearchInv(s, f, a) && s.qhead == |s.trail|
    requires p.v < |s.vardata| && Value(s.assigns, p) == LUndef && (|s.trailLim| < |a| ==> p == a[|s.trailLim|])
    requires forall v: nat :: v < |s.vardata| && v != p.v && Value(s.assigns, Lit(v, false)) == LUndef ==> v in heap
    ensures p.v < |s.assigns|
    ensures var t := Enqueue(NewLevel(s), p, NO_REASON);
            SearchInv(t, f, a) && HeapOk(t, heap) && SearchRank(t, a) < SearchRank(s, a)
  {
    var t := Enqueue(NewLevel(s), p, NO_REASON);
    DecideOk(s, a, p);
    DecideKeepsInvariant(s, p);
    SolverInvFacts(t, |t.trailLim| + 1);
    NewLevelRank(s, t, a);
    assert forall v: nat :: Value(t.assigns, Lit(v, false)) == LUndef ==> v != p.v && Value(s.assigns, Lit(v, false)) == LUndef;
  }

  lemma FewerLevelsInOrder(s: State, lb: nat, lb2: nat)
    requires SolverInv(s, lb) && lb2 <= lb
    ensures SolverInv(s, lb2)
  {}

  lemma RestartStep(s: State, f: seq<Clause>, a: seq<Lit>)
    requires SearchInv(s, f, a) && |s.trailLim| > 0
    ensures s.trailLim[0] <= |s.trail| && SearchInv(Cancel(s, 0), f, a)
  {
    FewerLevelsInOrder(s, |s.trailLim| + 1, |s.trailLim|);
    CancelKeepsInvariant(s, 0);
    CancelKeepsAssumptions(s, a, 0);
    forall m ensures Models(Cancel(s, 0), m) <==> Models(s, m) { CancelKeepsModels(s, 0, m); }
  }

  lemma RootConflict(s: State, t: State, f: seq<Clause>, a: seq<Lit>, confl: nat)
    requires SearchInv(s, f, a) && Extends(s, t) && SolverInv(t, |t.trailLim|) && |t.trailLim| == 0 && ConflictClause(t, confl)
    ensures Entails(f, []) && TrailInv(t)
  {
    assert Represents(f, t);
    ConflictAtRoot(t, f, confl);
  }

  lemma ConflictIndex(s: State, confl: int)
    requires ConflictClause(s, confl)
    ensures 0 <= confl < |s.ca|
  {}

  lemma HeapForAny(s: State, heap: set<nat>, p: Lit)
    requires HeapOk(s, heap)
    ensures forall v: nat :: v < |s.vardata| && v != p.v && Value(s.assigns, Lit(v, false)) == LUndef ==> v in heap
  {}
}
