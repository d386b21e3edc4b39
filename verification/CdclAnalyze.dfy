/** First-UIP conflict analysis: what the seen marks stand for, and why the learnt clause is implied. */
module CdclAnalyze {
  import opened Sat
  import opened CdclState
  import opened CdclWatches
  import opened CdclPropagate

  predicate Seen(seen: seq<bool>, v: nat) { v < |seen| && seen[v] }

  /** The marked trail literals cannot all hold in a model: the marks describe an implied clause. */
  ghost predicate Cut(s: State, seen: seq<bool>) {
    forall m :: Models(s, m) ==> Blocked(s, seen, m)
  }

  ghost predicate Blocked(s: State, seen: seq<bool>, m: Model) {
    exists i :: 0 <= i < |s.trail| && Seen(seen, s.trail[i].v) && !LitTrue(m, s.trail[i])
  }

  /** A literal that counts for the analysis is falsified above level 0. */
  ghost predicate Covered(s: State, seen: seq<bool>, l: Lit) {
    Level(s.vardata, l.v) == 0 || Seen(seen, l.v)
  }

  /** Marks grow from a to b. */
  ghost predicate Grows(a: seq<bool>, b: seq<bool>) {
    |a| == |b| && forall v :: Seen(a, v) ==> Seen(b, v)
  }

  /** The literals of a clause from position j0 up to j are marked or fixed. */
  ghost predicate AllCovered(s: State, seen: seq<bool>, c: Clause, j0: nat, j: nat) {
    j0 <= j <= |c| && forall k :: j0 <= k < j ==> Covered(s, seen, c[k])
  }

  lemma CoveredEach(s: State, seen: seq<bool>, c: Clause, j0: nat)
    requires AllCovered(s, seen, c, j0, |c|)
    ensures forall k :: j0 <= k < |c| ==> Covered(s, seen, c[k])
  {}

  lemma GrowsSelf(seen: seq<bool>)
    ensures Grows(seen, seen)
  {}

  lemma NoneCovered(s: State, seen: seq<bool>, c: Clause, j0: nat)
    requires j0 <= |c|
    ensures AllCovered(s, seen, c, j0, j0)
  {}

  /** Marking the variable of the next literal covers it. */
  lemma CoverNext(s: State, seen: seq<bool>, before: seq<bool>, c: Clause, j0: nat, j: nat)
    requires AllCovered(s, seen, c, j0, j) && j < |c| && c[j].v < |seen| && Grows(before, seen)
    ensures AllCovered(s, seen[c[j].v := true], c, j0, j + 1) && Grows(before, seen[c[j].v := true])
    ensures seen[c[j].v] || Level(s.vardata, c[j].v) == 0 ==> AllCovered(s, seen, c, j0, j + 1)
  {
    var after := seen[c[j].v := true];
    forall v | Seen(seen, v) ensures Seen(after, v) {}
  }

  lemma FalseInModel(s: State, m: Model, l: Lit, seen: seq<bool>)
    requires TrailValues(s) && Models(s, m)
    requires Value(s.assigns, l) == LFalse && Covered(s, seen, l) && LitTrue(m, l)
    ensures Blocked(s, seen, m)
  {
    var k := FalseOnTrail(s, l);
  }

  /** Marking a falsified clause gives the first cut. */
  lemma CutFromConflict(s: State, c: Clause, cr: nat, seen: seq<bool>)
    requires TrailValues(s) && cr < |s.ca| && c == s.ca[cr]
    requires forall l :: l in c ==> Value(s.assigns, l) == LFalse && Covered(s, seen, l)
    ensures Cut(s, seen)
  {
    forall m | Models(s, m) ensures Blocked(s, seen, m) {
      assert ClauseTrue(m, c);
      var l :| l in c && LitTrue(m, l);
      FalseInModel(s, m, l, seen);
    }
  }

  /** Resolving the cut on p with the reason of p gives the next cut. */
  lemma CutFromReason(s: State, p: Lit, cr: nat, before: seq<bool>, after: seq<bool>)
    requires TrailValues(s) && cr < |s.ca| && p.v < |before|
    requires p in s.trail && Value(s.assigns, p) == LTrue
    requires Cut(s, before[p.v := true]) && Grows(before, after)
    requires forall l :: l in s.ca[cr] && l != p ==> Value(s.assigns, l) == LFalse && Covered(s, after, l)
    ensures Cut(s, after)
  {
    forall m | Models(s, m) ensures Blocked(s, after, m) {
      assert Blocked(s, before[p.v := true], m);
      var i :| 0 <= i < |s.trail| && Seen(before[p.v := true], s.trail[i].v) && !LitTrue(m, s.trail[i]);
      if s.trail[i].v != p.v {
        assert Seen(before, s.trail[i].v);
      } else {
        var k :| 0 <= k < |s.trail| && s.trail[k] == p;
        assert s.trail[i] == p;
        assert ClauseTrue(m, s.ca[cr]);
        var l :| l in s.ca[cr] && LitTrue(m, l);
        FalseInModel(s, m, l, after);
      }
    }
  }

  // ------------------------------------------------------- counting the marks of the current level

  function CountSeen(trail: seq<Lit>, seen: seq<bool>, lo: nat, hi: nat): nat
    requires hi <= |trail|
    decreases hi
  {
    if hi <= lo then 0
    else CountSeen(trail, seen, lo, hi - 1) + (if Seen(seen, trail[hi - 1].v) then 1 else 0)
  }

  lemma {:induction false} CountSame(trail: seq<Lit>, a: seq<bool>, b: seq<bool>, lo: nat, hi: nat)
    requires hi <= |trail| && forall i :: lo <= i < hi ==> (Seen(a, trail[i].v) <==> Seen(b, trail[i].v))
    ensures CountSeen(trail, a, lo, hi) == CountSeen(trail, b, lo, hi)
    decreases hi
  {
    if lo < hi { CountSame(trail, a, b, lo, hi - 1); }
  }

  lemma {:induction false} CountMark(trail: seq<Lit>, seen: seq<bool>, lo: nat, hi: nat, k: nat)
    requires lo <= k < hi <= |trail| && DistinctVars(trail)
    requires trail[k].v < |seen| && !seen[trail[k].v]
    ensures CountSeen(trail, seen[trail[k].v := true], lo, hi) == CountSeen(trail, seen, lo, hi) + 1
    decreases hi
  {
    if k == hi - 1 {
      CountSame(trail, seen, seen[trail[k].v := true], lo, hi - 1);
    } else {
      CountMark(trail, seen, lo, hi - 1, k);
    }
  }

  lemma {:induction false} CountPositive(trail: seq<Lit>, seen: seq<bool>, lo: nat, hi: nat, k: nat)
    requires lo <= k < hi <= |trail| && Seen(seen, trail[k].v)
    ensures CountSeen(trail, seen, lo, hi) > 0
    decreases hi
  {
    if k < hi - 1 { CountPositive(trail, seen, lo, hi - 1, k); }
  }

  lemma {:induction false} CountZero(trail: seq<Lit>, seen: seq<bool>, lo: nat, hi: nat)
    requires hi <= |trail| && CountSeen(trail, seen, lo, hi) == 0
    ensures forall i :: lo <= i < hi ==> !Seen(seen, trail[i].v)
    decreases hi
  {
    if lo < hi { CountZero(trail, seen, lo, hi - 1); }
  }

  // ------------------------------------------------------- redundant literals

  /** v was propagated, and every other literal of its reason is marked or fixed at level 0. */
  ghost predicate Justified(s: State, seen: seq<bool>, v: nat) {
    var r := Reason(s.vardata, v);
    0 <= r < |s.ca| && forall l :: l in s.ca[r] && l.v != v ==> Covered(s, seen, l)
  }

  /** Every marked variable is kept, still on the work list, or justified. */
  ghost predicate MarksJustified(s: State, seen: seq<bool>, kept: set<nat>, work: seq<Lit>) {
    forall v :: Seen(seen, v) ==> v in kept || VarIn(work, v) || Justified(s, seen, v)
  }

  /** If the kept marked literals hold in a model, so do all marked ones. */
  lemma JustifiedMarksHold(s: State, seen: seq<bool>, kept: set<nat>, m: Model, i: nat)
    requires TrailInv(s) && Models(s, m) && MarksJustified(s, seen, kept, [])
    requires forall j :: 0 <= j < |s.trail| && s.trail[j].v in kept ==> LitTrue(m, s.trail[j])
    requires i < |s.trail| && Seen(seen, s.trail[i].v)
    ensures LitTrue(m, s.trail[i])
    decreases i
  {
    var p := s.trail[i];
    if p.v !in kept {
      assert ReasonAt(s, i);
      var c := s.ca[Reason(s.vardata, p.v)];
      assert Justified(s, seen, p.v);
      assert ClauseTrue(m, c);
      var l :| l in c && LitTrue(m, l);
      if l != p {
        assert l.Not() in s.trail[..i];
        var j :| 0 <= j < i && s.trail[..i][j] == l.Not();
        assert s.trail[j] == l.Not() && s.trail[j].v != p.v;
        if Level(s.vardata, l.v) != 0 {
          JustifiedMarksHold(s, seen, kept, m, j);
        }
      }
    }
  }

  /** Dropping justified marks keeps the cut. */
  lemma MinimizedCut(s: State, seen: seq<bool>, full: seq<bool>, small: seq<bool>, uip: nat)
    requires TrailInv(s) && uip < |full| == |small|
    requires Cut(s, full[uip := true])
    requires forall v :: Seen(full, v) ==> Seen(seen, v)
    requires MarksJustified(s, seen, set v | 0 <= v < |small| && small[v], [])
    ensures Cut(s, small[uip := true])
  {
    var kept := set v | 0 <= v < |small| && small[v];
    forall m | Models(s, m) ensures Blocked(s, small[uip := true], m) {
      assert Blocked(s, full[uip := true], m);
      var i :| 0 <= i < |s.trail| && Seen(full[uip := true], s.trail[i].v) && !LitTrue(m, s.trail[i]);
      if !Blocked(s, small[uip := true], m) {
        forall j | 0 <= j < |s.trail| && s.trail[j].v in kept ensures LitTrue(m, s.trail[j]) {
          assert Seen(small[uip := true], s.trail[j].v);
        }
        assert Seen(small[uip := true], uip);
        assert s.trail[i].v != uip;
        JustifiedMarksHold(s, seen, kept, m, i);
      }
    }
  }

  // ------------------------------------------------------- the state of the first-UIP loop

  /** First trail position of the current level. */
  function LevelStart(s: State): nat {
    if |s.trailLim| == 0 then 0 else s.trailLim[|s.trailLim| - 1]
  }

  /** The marks during the loop: pathC counts those of the current level, all before position hi. */
  ghost predicate MarksOk(s: State, seen: seq<bool>, hi: nat, pathC: nat) {
    && |seen| == |s.vardata|
    && hi <= |s.trail|
    && (forall v :: Seen(seen, v) ==> Value(s.assigns, Lit(v, false)) != LUndef && Level(s.vardata, v) > 0)
    && (forall i :: hi <= i < |s.trail| ==> !Seen(seen, s.trail[i].v))
    && pathC == CountSeen(s.trail, seen, LevelStart(s), hi)
  }

  /** `rest` lists the marked literals of lower levels. */
  ghost predicate RestOk(s: State, seen: seq<bool>, rest: Clause) {
    && (forall q :: q in rest ==> Value(s.assigns, q) == LFalse && 0 < Level(s.vardata, q.v) < |s.trailLim| && Seen(seen, q.v))
    && (forall v :: Seen(seen, v) && Level(s.vardata, v) < |s.trailLim| ==> VarIn(rest, v))
    && DistinctVars(rest)
  }

  ghost predicate Analysis(s: State, seen: seq<bool>, rest: Clause, hi: nat, pathC: nat) {
    MarksOk(s, seen, hi, pathC) && RestOk(s, seen, rest)
  }

  lemma AnalysisSize(s: State, seen: seq<bool>, rest: Clause, hi: nat, pathC: nat)
    requires Analysis(s, seen, rest, hi, pathC)
    ensures |seen| == |s.vardata|
  {}

  lemma PositionLevel(s: State, i: nat)
    requires TrailLevels(s) && i < |s.trail|
    ensures Level(s.vardata, s.trail[i].v) == |s.trailLim| <==> i >= LevelStart(s)
    ensures Level(s.vardata, s.trail[i].v) <= |s.trailLim|
  {
    assert InLevel(s, i, Level(s.vardata, s.trail[i].v));
  }

  lemma MarkLower(s: State, seen: seq<bool>, rest: Clause, hi: nat, pathC: nat, q: Lit)
    requires TrailInv(s) && Analysis(s, seen, rest, hi, pathC) && q.Not() in s.trail[..hi]
    requires Value(s.assigns, q) == LFalse && 0 < Level(s.vardata, q.v) < |s.trailLim| && q.v < |seen| && !seen[q.v]
    ensures Analysis(s, seen[q.v := true], rest + [q], hi, pathC)
  {
    MarkLowerRest(s, seen, rest, q);
    var after := seen[q.v := true];
    forall i | LevelStart(s) <= i < |s.trail| ensures s.trail[i].v != q.v { PositionLevel(s, i); }
    CountSame(s.trail, seen, after, LevelStart(s), hi);
    var k :| 0 <= k < hi && s.trail[..hi][k] == q.Not();
    assert s.trail[k] == q.Not();
  }

  lemma MarkLowerRest(s: State, seen: seq<bool>, rest: Clause, q: Lit)
    requires RestOk(s, seen, rest) && q.v < |seen| && !seen[q.v]
    requires Value(s.assigns, q) == LFalse && 0 < Level(s.vardata, q.v) < |s.trailLim|
    ensures RestOk(s, seen[q.v := true], rest + [q])
  {
    AppendLit(rest, q);
    assert forall i :: 0 <= i < |rest| ==> rest[i] in rest;
  }

  lemma AppendLit(c: Clause, q: Lit)
    ensures forall v :: VarIn(c, v) || v == q.v ==> VarIn(c + [q], v)
    ensures forall l :: l in c + [q] <==> l in c || l == q
  {
    var d := c + [q];
    assert d[|c|] == q;
    forall v | VarIn(c, v) ensures VarIn(d, v) {
      var i :| 0 <= i < |c| && c[i].v == v;
      assert d[i].v == v;
    }
  }

  lemma MarkCurrent(s: State, seen: seq<bool>, rest: Clause, hi: nat, pathC: nat, q: Lit)
    requires TrailInv(s) && Analysis(s, seen, rest, hi, pathC) && q.Not() in s.trail[..hi]
    requires 0 < |s.trailLim| <= Level(s.vardata, q.v) && q.v < |seen| && !seen[q.v]
    ensures Analysis(s, seen[q.v := true], rest, hi, pathC + 1)
  {
    var after := seen[q.v := true];
    var k :| 0 <= k < hi && s.trail[..hi][k] == q.Not();
    assert s.trail[k] == q.Not();
    PositionLevel(s, k);
    CountMark(s.trail, seen, LevelStart(s), hi, k);
  }

  /** Taking the last marked literal p = trail[hi - 1] of the current level out of the marks. */
  lemma Unmark(s: State, seen: seq<bool>, rest: Clause, hi: nat, pathC: nat)
    requires TrailInv(s) && Analysis(s, seen, rest, hi, pathC)
    requires LevelStart(s) < hi && Seen(seen, s.trail[hi - 1].v)
    ensures pathC > 0 && Analysis(s, seen[s.trail[hi - 1].v := false], rest, hi - 1, pathC - 1)
  {
    var p := s.trail[hi - 1];
    var after := seen[p.v := false];
    PositionLevel(s, hi - 1);
    CountSame(s.trail, seen, after, LevelStart(s), hi - 1);
    CountPositive(s.trail, seen, LevelStart(s), hi, hi - 1);
    forall v | Seen(after, v) && Level(s.vardata, v) < |s.trailLim| ensures VarIn(rest, v) { assert Seen(seen, v); }
    forall q | q in rest ensures q.v != p.v { assert Level(s.vardata, q.v) < |s.trailLim|; }
  }

  /** While marks of the current level are left, the last one found has a reason. */
  lemma StillPropagated(s: State, seen: seq<bool>, rest: Clause, hi: nat, pathC: nat)
    requires TrailInv(s) && Analysis(s, seen, rest, hi, pathC) && pathC > 0 && hi < |s.trail| && |s.trailLim| > 0
    ensures LevelStart(s) < hi
    ensures Reason(s.vardata, s.trail[hi].v) != NO_REASON && ReasonOk(s, hi, Reason(s.vardata, s.trail[hi].v))
  {
    PositionLevel(s, hi);
    assert ReasonAt(s, hi);
  }

  // ------------------------------------------------------- reordering a binary clause

  /** The binary clause at cr with its literals exchanged. */
  function SwapBinary(s: State, cr: nat): State
    requires cr < |s.ca| && |s.ca[cr]| == 2
  {
    s.(ca := s.ca[cr := [s.ca[cr][1], s.ca[cr][0]]])
  }

  lemma SwapBinaryKeeps(s: State, cr: nat, lb: nat)
    requires SolverInv(s, lb) && cr < |s.ca| && |s.ca[cr]| == 2
    ensures SolverInv(SwapBinary(s, cr), lb) && Extends(s, SwapBinary(s, cr))
  {
    var t := SwapBinary(s, cr);
    var c, d := s.ca[cr], t.ca[cr];
    assert ClauseShape(c, |s.vardata|);
    assert d[0] == c[1] && d[1] == c[0] && d[0] in c && d[1] in c && c[0] in d && c[1] in d;
    assert ClauseShape(d, |s.vardata|);
    PermuteKeepsTrail(s, cr, d);
    SwapBinaryShape(s, cr);
    SwapBinaryPropagated(s, cr, lb);
  }

  lemma SwapBinaryShape(s: State, cr: nat)
    requires WatchShape(s) && AllAttached(s) && cr < |s.ca| && |s.ca[cr]| == 2
    ensures WatchShape(SwapBinary(s, cr)) && AllAttached(SwapBinary(s, cr))
  {
    var t := SwapBinary(s, cr);
    assert t.ca[cr][0] == s.ca[cr][1] && t.ca[cr][1] == s.ca[cr][0];
    forall p | p in t.watches ensures ListShape(t, p, t.watches[p]) {
      assert ListShape(s, p, s.watches[p]);
      forall k | 0 <= k < |s.watches[p]| ensures WatcherShape(t, p, s.watches[p][k]) {
        assert WatcherShape(s, p, s.watches[p][k]);
      }
    }
    forall p, k | p in t.watchesBin && 0 <= k < |t.watchesBin[p]| ensures BinaryShape(t, p, t.watchesBin[p][k]) {
      assert BinaryShape(s, p, s.watchesBin[p][k]);
    }
    forall k | 0 <= k < |t.ca| ensures |t.ca[k]| >= 2 && Attached(t, k) { assert Attached(s, k); }
  }

  lemma SwapBinaryPropagated(s: State, cr: nat, lb: nat)
    requires WatchShape(s) && Propagated(s, s.qhead, lb) && cr < |s.ca| && |s.ca[cr]| == 2
    ensures Propagated(SwapBinary(s, cr), s.qhead, lb)
  {
    var t := SwapBinary(s, cr);
    forall i | 0 <= i < s.qhead && Level(s.vardata, s.trail[i].v) < lb
      ensures LongDone(t, t.trail[i]) && BinaryDone(t, t.trail[i])
    {
      var p := s.trail[i];
      assert LongDone(s, p) && BinaryDone(s, p) && ListShape(s, p, s.watches[p]);
      forall k | 0 <= k < |s.watches[p]| ensures WatcherOk(t, p, s.watches[p][k]) {
        assert WatcherOk(s, p, s.watches[p][k]) && WatcherShape(s, p, s.watches[p][k]);
      }
    }
  }

  /** A reason clause of trail[i] in which, if binary, the true literal has been brought to the front. */
  lemma ReasonFront(s: State, i: nat, cr: nat)
    requires TrailInv(s) && i < |s.trail| && ReasonOk(s, i, cr)
    requires |s.ca[cr]| == 2 ==> Value(s.assigns, s.ca[cr][0]) != LFalse
    ensures s.ca[cr][0] == s.trail[i] && |s.ca[cr]| >= 2
    ensures forall j :: 1 <= j < |s.ca[cr]| ==> s.ca[cr][j].v != s.trail[i].v && ReadyLit(s, i, s.ca[cr][j])
  {
    var c := s.ca[cr];
    assert ClauseShape(c, |s.vardata|);
    forall l | l in c && l != s.trail[i] ensures ReadyLit(s, i, l) {
      var k :| 0 <= k < i && s.trail[..i][k] == l.Not();
      assert s.trail[k] == l.Not();
      ValueNot(s.assigns, l);
    }
    var j :| 0 <= j < |c| && c[j] == s.trail[i];
    assert c[0] in c;
  }

  /** l is false because of a trail literal before position hi. */
  ghost predicate ReadyLit(s: State, hi: nat, l: Lit) {
    && hi <= |s.trail| && l.v < |s.vardata|
    && Value(s.assigns, l) == LFalse && l.Not() in s.trail[..hi]
  }

  // ------------------------------------------------------- one round of the first-UIP loop

  /** The clause to resolve with next: the conflict itself (start 0), or the reason of trail[hi] (start 1). */
  ghost predicate Pending(s: State, seen: seq<bool>, hi: nat, pathC: nat, start: nat, confl: int) {
    && 0 <= confl < |s.ca|
    && if start == 0 then
         hi == |s.trail| && ConflictClause(s, confl) && forall v :: !Seen(seen, v)
       else
         start == 1 && hi < |s.trail| && pathC > 0 && s.trail[hi].v < |seen|
         && !Seen(seen, s.trail[hi].v)
         && Cut(s, seen[s.trail[hi].v := true]) && ReasonOk(s, hi, confl)
  }

  /** All literals of the clause to resolve with lie before position hi. */
  lemma PendingReady(s: State, seen: seq<bool>, hi: nat, pathC: nat, start: nat, confl: nat)
    requires TrailInv(s) && Pending(s, seen, hi, pathC, start, confl)
    requires start == 1 && |s.ca[confl]| == 2 ==> Value(s.assigns, s.ca[confl][0]) != LFalse
    ensures start <= |s.ca[confl]|
    ensures forall j :: start <= j < |s.ca[confl]| ==> ReadyLit(s, hi, s.ca[confl][j])
  {
    if start == 0 {
      var c := s.ca[confl];
      assert ClauseShape(c, |s.vardata|);
      forall j | 0 <= j < |c| ensures ReadyLit(s, hi, c[j]) {
        var k := FalseOnTrail(s, c[j]);
        assert s.trail[..hi][k] == c[j].Not();
      }
    } else {
      ReasonFront(s, hi, confl);
    }
  }

  lemma AfterMarking(s: State, seen: seq<bool>, after: seq<bool>, rest: Clause, hi: nat, pathC: nat, pathC2: nat, start: nat, confl: nat)
    requires TrailInv(s) && |s.trailLim| > 0 && Pending(s, seen, hi, pathC, start, confl)
    requires start == 1 && |s.ca[confl]| == 2 ==> Value(s.assigns, s.ca[confl][0]) != LFalse
    requires Analysis(s, after, rest, hi, pathC2) && Grows(seen, after) && pathC2 >= pathC
    requires start <= |s.ca[confl]| && forall j :: start <= j < |s.ca[confl]| ==> Covered(s, after, s.ca[confl][j])
    ensures Cut(s, after) && pathC2 > 0
  {
    var c := s.ca[confl];
    if start == 0 {
      CutFromConflict(s, c, confl, after);
      var x :| x in c && Level(s.vardata, x.v) == |s.trailLim|;
      var k := FalseOnTrail(s, x);
      PositionLevel(s, k);
      CountPositive(s.trail, after, LevelStart(s), hi, k);
    } else {
      ReasonFront(s, hi, confl);
      CutFromReason(s, s.trail[hi], confl, seen, after);
    }
  }

  /** What the first-UIP loop ends with: the cut consists of p and marks of lower levels. */
  ghost predicate UipFound(s: State, seen: seq<bool>, p: Lit, rest: Clause) {
    && p in s.trail && Level(s.vardata, p.v) == |s.trailLim| && p.v < |seen| == |s.vardata| && !Seen(seen, p.v)
    && RestOk(s, seen, rest)
    && (forall v :: Seen(seen, v) ==> 0 < Level(s.vardata, v) < |s.trailLim|)
    && Cut(s, seen[p.v := true])
  }

  lemma UipReached(s: State, seen: seq<bool>, rest: Clause, hi: nat)
    requires TrailInv(s) && Analysis(s, seen, rest, hi, 0) && LevelStart(s) <= hi < |s.trail|
    requires !Seen(seen, s.trail[hi].v) && Cut(s, seen[s.trail[hi].v := true])
    ensures UipFound(s, seen, s.trail[hi], rest)
  {
    CountZero(s.trail, seen, LevelStart(s), hi);
    PositionLevel(s, hi);
    forall v | Seen(seen, v) ensures 0 < Level(s.vardata, v) < |s.trailLim| {
      var l := if Value(s.assigns, Lit(v, false)) == LTrue then Lit(v, false) else Lit(v, true);
      assert Value(s.assigns, Lit(v, false)) != LUndef && l in s.trail;
      var k :| 0 <= k < |s.trail| && s.trail[k] == l;
      PositionLevel(s, k);
    }
  }

  lemma MarkBack(seen: seq<bool>, v: nat)
    requires v < |seen| && seen[v]
    ensures seen[v := false][v := true] == seen
  {}

  lemma StartAnalysis(s: State, seen: seq<bool>)
    requires TrailInv(s) && |seen| == |s.vardata| && forall v :: !Seen(seen, v)
    ensures Analysis(s, seen, [], |s.trail|, 0)
    ensures forall confl :: ConflictClause(s, confl) ==> Pending(s, seen, |s.trail|, 0, 0, confl)
  {
    if CountSeen(s.trail, seen, LevelStart(s), |s.trail|) > 0 { CountSomeSeen(s.trail, seen, LevelStart(s), |s.trail|); }
  }

  lemma {:induction false} CountSomeSeen(trail: seq<Lit>, seen: seq<bool>, lo: nat, hi: nat)
    requires hi <= |trail| && CountSeen(trail, seen, lo, hi) > 0
    ensures exists i :: lo <= i < hi && Seen(seen, trail[i].v)
    decreases hi
  {
    if !Seen(seen, trail[hi - 1].v) { CountSomeSeen(trail, seen, lo, hi - 1); }
  }

  lemma PendingClause(s: State, seen: seq<bool>, hi: nat, pathC: nat, confl: nat)
    requires TrailInv(s) && Pending(s, seen, hi, pathC, 1, confl)
    ensures confl < |s.ca| && |s.ca[confl]| >= 2
    ensures exists l :: l in s.ca[confl] && Value(s.assigns, l) != LFalse
  {
    assert ClauseShape(s.ca[confl], |s.vardata|);
    assert s.trail[hi] in s.ca[confl];
  }

  /** Exchanging the literals of the reason clause changes nothing else. */
  lemma PendingPermuted(s: State, t: State, seen: seq<bool>, rest: Clause, hi: nat, pathC: nat, confl: nat)
    requires Pending(s, seen, hi, pathC, 1, confl) && Analysis(s, seen, rest, hi, pathC)
    requires Extends(s, t) && t == s.(ca := t.ca)
    requires SameLits(s.ca[confl], t.ca[confl]) && (|s.ca[confl]| > 2 ==> t.ca[confl] == s.ca[confl])
    ensures Pending(t, seen, hi, pathC, 1, confl) && Analysis(t, seen, rest, hi, pathC)
  {
    var cut := seen[s.trail[hi].v := true];
    forall m | Models(t, m) ensures Blocked(t, cut, m) {
      assert Models(s, m) && Blocked(s, cut, m);
    }
  }

  lemma PendingBound(s: State, seen: seq<bool>, hi: nat, pathC: nat, start: nat, confl: nat)
    requires Pending(s, seen, hi, pathC, start, confl)
    ensures confl < |s.ca| && start <= 1
  {}

  /** After a round: trail[hi] has just been taken out of a cut that contains it. */
  ghost predicate RoundDone(s: State, seen: seq<bool>, rest: Clause, hi: nat, pathC: nat) {
    && Analysis(s, seen, rest, hi, pathC)
    && LevelStart(s) <= hi < |s.trail| && s.trail[hi].v < |seen| && !Seen(seen, s.trail[hi].v)
    && Cut(s, seen[s.trail[hi].v := true])
  }

  lemma RoundEnds(s: State, seen: seq<bool>, rest: Clause, hi: nat, pathC: nat)
    requires TrailInv(s) && Analysis(s, seen, rest, hi, pathC) && Cut(s, seen)
    requires LevelStart(s) < hi <= |s.trail| && Seen(seen, s.trail[hi - 1].v)
    ensures pathC > 0 && s.trail[hi - 1].v < |seen|
    ensures RoundDone(s, seen[s.trail[hi - 1].v := false], rest, hi - 1, pathC - 1)
  {
    Unmark(s, seen, rest, hi, pathC);
    MarkBack(seen, s.trail[hi - 1].v);
  }

  lemma RoundFacts(s: State, seen: seq<bool>, rest: Clause, hi: nat, pathC: nat)
    requires RoundDone(s, seen, rest, hi, pathC)
    requires SolverInv(s, |s.trailLim|)
    ensures LevelStart(s) <= hi < |s.trail| && s.trail[hi].v < |seen| && !Seen(seen, s.trail[hi].v)
    ensures Analysis(s, seen, rest, hi, pathC) && Cut(s, seen[s.trail[hi].v := true]) && TrailInv(s)
  {}

  lemma NextPending(s: State, seen: seq<bool>, rest: Clause, hi: nat, pathC: nat)
    requires TrailInv(s) && RoundDone(s, seen, rest, hi, pathC) && pathC > 0 && |s.trailLim| > 0
    ensures hi < |s.trail| && 0 <= Reason(s.vardata, s.trail[hi].v)
    ensures Pending(s, seen, hi, pathC, 1, Reason(s.vardata, s.trail[hi].v))
  {
    StillPropagated(s, seen, rest, hi, pathC);
  }
}
