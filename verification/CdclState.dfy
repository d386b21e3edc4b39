/** The search state of the CDCL engine and the invariant that ties its parts together. */
module CdclState {
  import opened Sat

  datatype LBool = LTrue | LFalse | LUndef

  /** Reason clause (an index into the clause arena, or NoReason) and decision level of a variable. */
  datatype VarData = VarData(reason: int, level: nat)

  datatype Watcher = Watcher(cref: nat, blocker: Lit)

  const NO_REASON: int := -1

  datatype State = State(
    ca: seq<Clause>,
    assigns: seq<LBool>,
    vardata: seq<VarData>,
    trail: seq<Lit>,
    trailLim: seq<nat>,
    qhead: nat,
    watches: map<Lit, seq<Watcher>>,
    watchesBin: map<Lit, seq<Watcher>>)

  function Value(assigns: seq<LBool>, l: Lit): LBool {
    if l.v >= |assigns| || assigns[l.v] == LUndef then LUndef
    else if (assigns[l.v] == LTrue) != l.neg then LTrue
    else LFalse
  }

  function Level(vardata: seq<VarData>, v: nat): nat {
    if v < |vardata| then vardata[v].level else 0
  }

  function Reason(vardata: seq<VarData>, v: nat): int {
    if v < |vardata| then vardata[v].reason else NO_REASON
  }

  ghost predicate ClauseShape(c: Clause, n: nat) {
    && |c| >= 2
    && DistinctVars(c)
    && forall l :: l in c ==> l.v < n
  }

  /** The trail: distinct true literals that account for every assigned variable. */
  ghost predicate TrailValues(s: State) {
    && |s.assigns| == |s.vardata|
    && (forall i :: 0 <= i < |s.trail| ==> s.trail[i].v < |s.vardata| && Value(s.assigns, s.trail[i]) == LTrue)
    && (forall i, j :: 0 <= i < j < |s.trail| ==> s.trail[i].v != s.trail[j].v)
    && (forall l: Lit :: Value(s.assigns, l) == LTrue ==> l in s.trail)
  }

  /** trail_lim cuts the trail into levels, and level() names the block a literal is in. */
  ghost predicate TrailLevels(s: State) {
    && (forall k :: 0 <= k < |s.trailLim| ==> s.trailLim[k] <= |s.trail|)
    && (forall j, k :: 0 <= j < k < |s.trailLim| ==> s.trailLim[j] <= s.trailLim[k])
    && (forall i :: 0 <= i < |s.trail| ==> InLevel(s, i, Level(s.vardata, s.trail[i].v)))
  }

  ghost predicate InLevel(s: State, i: nat, lv: nat) {
    && lv <= |s.trailLim|
    && (lv > 0 ==> s.trailLim[lv - 1] <= i)
    && (lv < |s.trailLim| ==> i < s.trailLim[lv])
  }

  /** All literals of clause r other than trail[i] were falsified before position i. */
  ghost predicate ReasonOk(s: State, i: nat, r: int)
    requires i < |s.trail|
  {
    && 0 <= r < |s.ca|
    && s.trail[i] in s.ca[r]
    && (|s.ca[r]| > 2 ==> s.ca[r][0] == s.trail[i])
    && forall l :: l in s.ca[r] && l != s.trail[i] ==> l.Not() in s.trail[..i]
  }

  ghost predicate TrailReasons(s: State) {
    forall i :: 0 <= i < |s.trail| ==> ReasonAt(s, i)
  }

  ghost predicate ReasonAt(s: State, i: nat)
    requires i < |s.trail|
  {
    var v := s.trail[i].v;
    if Reason(s.vardata, v) == NO_REASON then
      var lv := Level(s.vardata, v);
      0 < lv <= |s.trailLim| ==> s.trailLim[lv - 1] == i
    else ReasonOk(s, i, Reason(s.vardata, v))
  }

  ghost predicate ClausesOk(s: State) {
    forall cr :: 0 <= cr < |s.ca| ==> ClauseShape(s.ca[cr], |s.vardata|)
  }

  ghost predicate QueueOk(s: State) {
    && s.qhead <= |s.trail|
    && (|s.trailLim| > 0 ==> s.trailLim[|s.trailLim| - 1] <= s.qhead)
  }

  ghost predicate TrailInv(s: State) {
    && TrailValues(s)
    && TrailLevels(s)
    && TrailReasons(s)
    && ClausesOk(s)
    && QueueOk(s)
  }

  /** m satisfies the clause arena and every fact fixed at level 0. */
  ghost predicate Models(s: State, m: Model) {
    && (forall cr :: 0 <= cr < |s.ca| ==> ClauseTrue(m, s.ca[cr]))
    && (forall i :: 0 <= i < |s.trail| && Level(s.vardata, s.trail[i].v) == 0 ==> LitTrue(m, s.trail[i]))
  }

  /** Clauses that every model of the state satisfies. */
  ghost predicate Implied(s: State, c: Clause) {
    forall m :: Models(s, m) ==> ClauseTrue(m, c)
  }

  lemma ValueNot(a: seq<LBool>, l: Lit)
    ensures Value(a, l) == LTrue <==> Value(a, l.Not()) == LFalse
    ensures Value(a, l) == LFalse <==> Value(a, l.Not()) == LTrue
  {}

  /** The level never decreases along the trail. */
  lemma LevelsMonotone(s: State, i: nat, j: nat)
    requires TrailLevels(s)
    requires i <= j < |s.trail|
    ensures Level(s.vardata, s.trail[i].v) <= Level(s.vardata, s.trail[j].v)
  {
    var li, lj := Level(s.vardata, s.trail[i].v), Level(s.vardata, s.trail[j].v);
    assert InLevel(s, i, li) && InLevel(s, j, lj);
  }

  /** A false literal's negation is on the trail. */
  lemma FalseOnTrail(s: State, l: Lit) returns (i: nat)
    requires TrailValues(s)
    requires Value(s.assigns, l) == LFalse
    ensures i < |s.trail| && s.trail[i] == l.Not()
  {
    ValueNot(s.assigns, l);
    assert l.Not() in s.trail;
    i :| 0 <= i < |s.trail| && s.trail[i] == l.Not();
  }

  // ---------------------------------------------------------------- enqueue

  function Enqueue(s: State, p: Lit, from: int): State
    requires p.v < |s.assigns| == |s.vardata|
  {
    s.(assigns := s.assigns[p.v := if p.neg then LFalse else LTrue],
       vardata := s.vardata[p.v := VarData(from, |s.trailLim|)],
       trail := s.trail + [p])
  }

  /** Clause `from` is unit under the trail with p as the literal left to assign. */
  ghost predicate UnitFor(s: State, p: Lit, from: int) {
    && 0 <= from < |s.ca| && p in s.ca[from]
    && (|s.ca[from]| > 2 ==> s.ca[from][0] == p)
    && forall l :: l in s.ca[from] && l != p ==> Value(s.assigns, l) == LFalse
  }

  /** Assigned literals keep their values and levels; the new one is true. */
  lemma EnqueueKeepsValues(s: State, p: Lit, from: int)
    requires TrailValues(s) && p.v < |s.vardata| && Value(s.assigns, p) == LUndef
    ensures forall l: Lit :: Value(s.assigns, l) != LUndef ==> Value(Enqueue(s, p, from).assigns, l) == Value(s.assigns, l)
    ensures forall l: Lit :: Value(s.assigns, l) != LUndef ==> Level(Enqueue(s, p, from).vardata, l.v) == Level(s.vardata, l.v)
    ensures Value(Enqueue(s, p, from).assigns, p) == LTrue && p !in s.trail
    ensures forall i :: 0 <= i < |s.trail| ==> s.trail[i].v != p.v
  {}

  lemma EnqueueKeepsLevels(s: State, p: Lit, from: int)
    requires TrailValues(s) && TrailLevels(s) && p.v < |s.vardata| && Value(s.assigns, p) == LUndef
    ensures TrailLevels(Enqueue(s, p, from))
  {
    var t := Enqueue(s, p, from);
    EnqueueKeepsValues(s, p, from);
    forall i | 0 <= i < |t.trail|
      ensures InLevel(t, i, Level(t.vardata, t.trail[i].v))
    {
      if i < |s.trail| {
        assert t.trail[i] == s.trail[i];
        assert InLevel(s, i, Level(s.vardata, s.trail[i].v));
      }
    }
  }

  lemma EnqueueKeepsReasons(s: State, p: Lit, from: int)
    requires TrailValues(s) && TrailReasons(s) && p.v < |s.vardata| && Value(s.assigns, p) == LUndef
    requires from == NO_REASON ==>
               |s.trailLim| == 0 || s.trailLim[|s.trailLim| - 1] == |s.trail|
    requires from != NO_REASON ==> UnitFor(s, p, from)
    ensures TrailReasons(Enqueue(s, p, from))
  {
    var t := Enqueue(s, p, from);
    EnqueueKeepsValues(s, p, from);
    forall i | 0 <= i < |t.trail|
      ensures ReasonAt(t, i)
    {
      assert t.trail[..i] == s.trail[..i];
      if i < |s.trail| {
        assert t.trail[i] == s.trail[i];
        assert ReasonAt(s, i);
      } else if from != NO_REASON {
        forall l | l in s.ca[from] && l != p
          ensures l.Not() in t.trail[..i]
        {
          var k := FalseOnTrail(s, l);
          assert t.trail[..i][k] == l.Not();
        }
      }
    }
  }

  /** Enqueuing an undefined literal keeps the trail invariant when its reason is a unit clause
      under the trail; a literal without a reason must open its level. */
  lemma EnqueueKeepsTrail(s: State, p: Lit, from: int)
    requires TrailInv(s) && p.v < |s.vardata| && Value(s.assigns, p) == LUndef
    requires from == NO_REASON ==>
               |s.trailLim| == 0 || s.trailLim[|s.trailLim| - 1] == |s.trail|
    requires from != NO_REASON ==> UnitFor(s, p, from)
    ensures TrailInv(Enqueue(s, p, from))
  {
    EnqueueKeepsValues(s, p, from);
    EnqueueKeepsLevels(s, p, from);
    EnqueueKeepsReasons(s, p, from);
  }

  /** A literal enqueued with a reason adds no constraint: the models stay the same. */
  lemma EnqueueKeepsModels(s: State, p: Lit, from: int, m: Model)
    requires TrailInv(s) && p.v < |s.vardata| && Value(s.assigns, p) == LUndef
    requires from == NO_REASON ==> |s.trailLim| > 0
    requires from != NO_REASON ==> UnitFor(s, p, from)
    ensures Models(Enqueue(s, p, from), m) <==> Models(s, m)
  {
    var t := Enqueue(s, p, from);
    var n := |s.trail|;
    assert forall i :: 0 <= i < n ==> t.trail[i] == s.trail[i] && s.trail[i].v != p.v;
    assert forall i :: 0 <= i < n ==> Level(t.vardata, s.trail[i].v) == Level(s.vardata, s.trail[i].v);
    assert t.trail[n] == p && Level(t.vardata, p.v) == |s.trailLim|;
    if Models(s, m) && |s.trailLim| == 0 {
      forall l | l in s.ca[from] && l != p ensures !LitTrue(m, l) {
        var k := FalseOnTrail(s, l);
        assert InLevel(s, k, Level(s.vardata, s.trail[k].v));
      }
      assert ClauseTrue(m, s.ca[from]);
    }
    if Models(t, m) {
      forall i | 0 <= i < n && Level(s.vardata, s.trail[i].v) == 0 ensures LitTrue(m, s.trail[i]) {
        assert LitTrue(m, t.trail[i]);
      }
    }
  }
}
