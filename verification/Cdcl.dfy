/** The CDCL engine: a mutable solver object whose methods are proved against CdclState. */
module Cdcl {
  import opened Sat
  import opened CdclState
  import opened CdclWatches
  import opened CdclPropagate
  import opened CdclAnalyze
  import opened CdclUip
  import opened CdclRedundant
  import opened CdclFinal
  import opened CdclMinimize
  import opened CdclRank
  import opened CdclSearch
  import opened CdclInput

  class Solver {
    var ca: seq<Clause>
    var assigns: seq<LBool>
    var vardata: seq<VarData>
    var trail: seq<Lit>
    var trailLim: seq<nat>
    var qhead: nat
    var watches: map<Lit, seq<Watcher>>
    var watchesBin: map<Lit, seq<Watcher>>
    var seen: seq<bool>
    var analyzeToClear: seq<Lit>
    var ccminMode: int
    var lbLbdMinimizingClause: nat
    var lbSizeMinimizingClause: nat
    var orderHeap: set<nat>
    var assumptions: seq<Lit>
    var conflict: Clause
    var ok: bool
    var conflicts: nat
    ghost var formula: seq<Clause>  // the clauses given to the solver

    ghost function Snap(): State reads this {
      State(ca, assigns, vardata, trail, trailLim, qhead, watches, watchesBin)
    }

    function DecisionLevel(): nat reads this { |trailLim| }

    method UncheckedEnqueue(p: Lit, from: int)
      requires p.v < |assigns| == |vardata|
      modifies this`assigns, this`vardata, this`trail
      ensures Snap() == Enqueue(old(Snap()), p, from)
    {
      assigns := assigns[p.v := if p.neg then LFalse else LTrue];
      vardata := vardata[p.v := VarData(from, DecisionLevel())];
      trail := trail + [p];
    }

    /** The first position from 2 on that holds a literal that is not false, or the clause size. */
    method FindNewWatch(cr: nat) returns (k: nat)
      requires cr < |ca| && |ca[cr]| > 2
      ensures k == NewWatchAt(assigns, ca[cr], 2)
    {
      k := 2;
      while k < |ca[cr]|
        invariant 2 <= k <= |ca[cr]|
        invariant NewWatchAt(assigns, ca[cr], 2) == NewWatchAt(assigns, ca[cr], k)
      {
        if Value(assigns, ca[cr][k]) != LFalse { return; }
        k := k + 1;
      }
    }

    /** Visits one watcher of p and says what becomes of it. */
    method VisitWatcher(p: Lit, w: Watcher) returns (r: Visit)
      requires Visitable(Snap(), w) && p.Not() in ca[w.cref]
      modifies this`ca, this`assigns, this`vardata, this`trail, this`watches
      ensures Snap() == VisitState(old(Snap()), p, w) && r == VisitResult(old(Snap()), p, w)
    {
      var blocker := w.blocker;
      if Value(assigns, blocker) == LTrue {
        return Keep(w);
      }
      var cr, falseLit := w.cref, p.Not();
      if ca[cr][0] == falseLit {
        ca := ca[cr := ca[cr][0 := ca[cr][1]][1 := falseLit]];
      }
      assert ca == old(ca)[cr := Front(old(ca)[cr], p)];
      var first := ca[cr][0];
      if first != blocker && Value(assigns, first) == LTrue {
        return Keep(Watcher(cr, first));
      }
      var k := FindNewWatch(cr);
      if k < |ca[cr]| {
        var l := ca[cr][k];
        ca := ca[cr := ca[cr][1 := l][k := falseLit]];
        watches := watches[l.Not() := watches[l.Not()] + [Watcher(cr, first)]];
        return Moved;
      }
      if Value(assigns, first) == LFalse {
        return Conflict(Watcher(cr, first));
      }
      UncheckedEnqueue(first, cr);
      return Keep(Watcher(cr, first));
    }

    /** Binary clauses of p: every blocker must hold. */
    method PropagateBinary(p: Lit, ghost idx: nat) returns (confl: int)
      requires Dequeued(Snap(), p, idx)
      modifies this`assigns, this`vardata, this`trail
      ensures Extends(old(Snap()), Snap()) && Dequeued(Snap(), p, idx)
      ensures confl == NO_REASON ==> Sweep(Snap(), p, idx, 0)
      ensures confl != NO_REASON ==> 0 <= confl < |ca| && FalseClause(Snap(), confl, p)
    {
      ghost var s0 := Snap();
      ExtendsItself(s0);
      assert p in watchesBin;
      var wbin := watchesBin[p];
      var k := 0;
      while k < |wbin|
        invariant p in watchesBin && wbin == watchesBin[p] && 0 <= k <= |wbin|
        invariant BinarySwept(Snap(), p, idx, k) && Extends(s0, Snap())
      {
        var imp := wbin[k].blocker;
        ghost var s := Snap();
        BinaryWatcherFacts(s, p, idx, k);
        if Value(assigns, imp) == LFalse {
          return wbin[k].cref;
        }
        if Value(assigns, imp) == LUndef {
          BinaryEnqueue(s, p, idx, k);
          UncheckedEnqueue(imp, wbin[k].cref);
          ExtendsTransitive(s0, s, Snap());
        } else {
          BinaryTrue(s, p, idx, k);
        }
        k := k + 1;
      }
      BinaryDoneSweep(Snap(), p, idx);
      return NO_REASON;
    }

    /** Long clauses of p: the watcher list is compacted in place while each watcher is visited. */
    method PropagateLong(p: Lit, ghost idx: nat) returns (confl: int)
      requires Sweep(Snap(), p, idx, 0)
      modifies this`ca, this`assigns, this`vardata, this`trail, this`watches, this`qhead
      ensures Extends(old(Snap()), Snap())
      ensures confl == NO_REASON ==> qhead == old(qhead) && p in watches && Sweep(Snap(), p, idx, |watches[p]|)
      ensures confl != NO_REASON ==>
                && 0 <= confl < |ca| && FalseClause(Snap(), confl, p)
                && qhead == |trail| && Dequeued(Snap().(qhead := old(qhead)), p, idx)
    {
      hide Sweep, Extends, FalseClause, Visitable, VisitState, VisitResult, Dequeued;
      ghost var s0 := Snap();
      ExtendsItself(s0);
      SweepFacts(s0, p, idx, 0);
      CompactionStart(s0, p, idx);
      var i, j := 0, 0;
      while i < |watches[p]|
        invariant p in watches && 0 <= j <= i <= |watches[p]|
        invariant Extends(s0, Snap()) && qhead == old(qhead)
        invariant Sweep(WithList(Snap(), p, watches[p][..j] + watches[p][i..]), p, idx, j)
        decreases |watches[p]| - i
      {
        ghost var s := Snap();
        CompactionStep(s, p, idx, j, i);
        var r := VisitWatcher(p, watches[p][i]);
        ghost var t := Snap();
        ExtendsTransitive(s0, s, t);
        i := i + 1;
        if r.Keep? {
          KeepWritten(t, p, idx, j, i, r.w);
          watches := watches[p := watches[p][j := r.w]];
          ExtendsSet(s0, t, watches, qhead);
          j := j + 1;
        } else if r.Conflict? {
          confl := r.w.cref;
          ConflictWritten(t, p, idx, j, i, r.w);
          FinishConflict(p, i, j, r.w, idx);
          ExtendsSet(s0, t, watches, qhead);
          return;
        }
      }
      CompactionFinish(Snap(), p, idx, j);
      ExtendsSet(s0, Snap(), watches[p := watches[p][..j]], qhead);
      watches := watches[p := watches[p][..j]];
      return NO_REASON;
    }

    /** After a conflict the rest of the list is copied down and the queue is dropped. */
    method FinishConflict(p: Lit, i0: nat, j0: nat, w: Watcher, ghost idx: nat)
      requires p in watches && j0 < i0 <= |watches[p]|
      modifies this`watches, this`qhead
      ensures qhead == |trail|
      ensures watches == old(watches)[p := old(watches)[p][..j0] + [w] + old(watches)[p][i0..]]
    {
      qhead := |trail|;
      var i, j, n := i0, j0, |watches[p]|;
      ghost var ws := watches[p];
      watches := watches[p := watches[p][j := w]];
      j := j + 1;
      CopyStart(ws, j0, w, i0);
      while i < n
        invariant qhead == |trail| && p in watches && CopiedDown(watches[p], ws, j0, w, i0, i, j)
        invariant watches == old(watches)[p := watches[p]]
      {
        CopyStep(watches[p], ws, j0, w, i0, i, j);
        watches := watches[p := watches[p][j := watches[p][i]]];
        i, j := i + 1, j + 1;
      }
      CopyEnd(watches[p], ws, j0, w, i0, j);
      watches := watches[p := watches[p][..j]];
    }

    /** Unit propagation to the end of the queue, or to a clause that the trail falsifies. */
    method Propagate() returns (confl: int)
      requires SolverInv(Snap(), |trailLim| + 1)
      modifies this`ca, this`assigns, this`vardata, this`trail, this`watches, this`qhead
      ensures Extends(old(Snap()), Snap())
      ensures confl == NO_REASON ==> qhead == |trail| && SolverInv(Snap(), |trailLim| + 1)
      ensures confl != NO_REASON ==> SolverInv(Snap(), |trailLim|) && ConflictClause(Snap(), confl)
    {
      hide Extends, SolverInv, ConflictClause, Sweep, Dequeued, FalseClause;
      ghost var s0 := Snap();
      ExtendsItself(s0);
      SolverInvFacts(s0, |trailLim| + 1);
      while qhead < |trail|
        invariant SolverInv(Snap(), |trailLim| + 1) && Extends(s0, Snap())
        invariant qhead <= |trail| <= |vardata| && |vardata| == |s0.vardata|
        decreases |vardata| - qhead
      {
        ghost var s, idx := Snap(), qhead;
        DequeueOk(s);
        var p := trail[qhead];
        qhead := qhead + 1;
        ExtendsSet(s0, s, watches, qhead);
        ghost var s1 := Snap();
        confl := PropagateBinary(p, idx);
        ghost var s2 := Snap();
        ExtendsTransitive(s0, s1, s2);
        if confl != NO_REASON {
          ConflictInv(s2, p, idx, qhead);
          FalseClauseIsConflict(s2, confl, p, idx);
          return;
        }
        confl := PropagateLong(p, idx);
        ghost var s3 := Snap();
        ExtendsTransitive(s0, s2, s3);
        if confl == NO_REASON {
          SweepDone(s3, p, idx);
        } else {
          ConflictAfterSweep(s3, p, idx, s2.qhead, confl);
          return;
        }
        SolverInvFacts(s3, |trailLim| + 1);
        ExtendsSizes(s0, s3);
      }
      return NO_REASON;
    }

    // ----------------------------------------------------- conflict analysis

    /** Brings the true literal of a binary reason clause to the front. */
    method FrontReason(cr: nat)
      requires SolverInv(Snap(), |trailLim|) && cr < |ca| && |ca[cr]| >= 2
      modifies this`ca
      ensures Extends(old(Snap()), Snap()) && SolverInv(Snap(), |trailLim|)
      ensures |ca[cr]| == 2 && (exists l :: l in ca[cr] && Value(assigns, l) != LFalse) ==> Value(assigns, ca[cr][0]) != LFalse
      ensures |ca| == |old(ca)| && forall k :: 0 <= k < |ca| && k != cr ==> ca[k] == old(ca)[k]
      ensures SameLits(old(ca)[cr], ca[cr]) && (|ca[cr]| > 2 ==> ca == old(ca))
    {
      ghost var s := Snap();
      ExtendsItself(s);
      if |ca[cr]| == 2 && Value(assigns, ca[cr][0]) == LFalse {
        SwapBinaryKeeps(s, cr, |trailLim|);
        var c := ca[cr];
        ca := ca[cr := [c[1], c[0]]];
        assert Snap() == SwapBinary(s, cr);
      }
    }

    /** Marks the literals of a clause from position j0 on and sorts them by level. */
    method MarkClause(cr: nat, j0: nat, rest0: Clause, pathC0: nat, ghost hi: nat) returns (rest: Clause, pathC: nat)
      requires TrailInv(Snap()) && |trailLim| > 0 && cr < |ca| && j0 <= |ca[cr]|
      requires Analysis(Snap(), seen, rest0, hi, pathC0)
      requires forall j :: j0 <= j < |ca[cr]| ==> ReadyLit(Snap(), hi, ca[cr][j])
      modifies this`seen
      ensures Analysis(Snap(), seen, rest, hi, pathC) && Grows(old(seen), seen) && pathC >= pathC0
      ensures forall j :: j0 <= j < |ca[cr]| ==> Covered(Snap(), seen, ca[cr][j])
      ensures AddedUpTo(Snap(), old(seen), seen, ca[cr], j0, |ca[cr]|)
    {
      rest, pathC := rest0, pathC0;
      var j := j0;
      hide Analysis, TrailInv, AllCovered, Grows, AddedUpTo;
      AddedNone(Snap(), seen, ca[cr], j0);
      GrowsSelf(seen);
      NoneCovered(Snap(), seen, ca[cr], j0);
      while j < |ca[cr]|
        invariant j0 <= j <= |ca[cr]| && pathC >= pathC0
        invariant Analysis(Snap(), seen, rest, hi, pathC) && Grows(old(seen), seen)
        invariant AllCovered(Snap(), seen, ca[cr], j0, j) && AddedUpTo(Snap(), old(seen), seen, ca[cr], j0, j)
      {
        var q := ca[cr][j];
        AnalysisSize(Snap(), seen, rest, hi, pathC);
        assert q.v < |vardata| by { assert ReadyLit(Snap(), hi, q); }
        AddedNext(Snap(), old(seen), seen, ca[cr], j0, j);
        CoverNext(Snap(), seen, old(seen), ca[cr], j0, j);
        assert ReadyLit(Snap(), hi, q);
        if !seen[q.v] && Level(vardata, q.v) != 0 {
          if Level(vardata, q.v) >= DecisionLevel() {
            MarkCurrent(Snap(), seen, rest, hi, pathC, q);
            pathC := pathC + 1;
          } else {
            MarkLower(Snap(), seen, rest, hi, pathC, q);
            rest := rest + [q];
          }
          seen := seen[q.v := true];
        }
        j := j + 1;
      }
      CoveredEach(Snap(), seen, ca[cr], j0);
    }

    /** Walks back to the last marked literal of the trail. */
    method ScanBack(hi0: nat, ghost rest: Clause, ghost pathC: nat) returns (hi: nat)
      requires TrailInv(Snap()) && |trailLim| > 0 && Analysis(Snap(), seen, rest, hi0, pathC) && pathC > 0
      ensures LevelStart(Snap()) < hi <= |trail| && Analysis(Snap(), seen, rest, hi, pathC) && hi <= hi0
      ensures Seen(seen, trail[hi - 1].v) && forall k :: hi <= k < hi0 ==> !Seen(seen, trail[k].v)
    {
      hi := hi0;
      while !seen[trail[hi - 1].v]
        invariant LevelStart(Snap()) < hi <= hi0 && Analysis(Snap(), seen, rest, hi, pathC)
        invariant forall k :: hi <= k < hi0 ==> !Seen(seen, trail[k].v)
        decreases hi
      {
        assert CountSeen(trail, seen, LevelStart(Snap()), hi - 1) == pathC;
        hi := hi - 1;
      }
    }

    /** Marks the pending clause: the marks are a cut again. */
    method MarkPending(confl: nat, start: nat, rest0: Clause, pathC0: nat, ghost hi: nat, ghost conflict: nat)
        returns (rest: Clause, pathC: nat)
      requires SolverInv(Snap(), |trailLim|) && |trailLim| > 0
      requires Analysis(Snap(), seen, rest0, hi, pathC0) && Pending(Snap(), seen, hi, pathC0, start, confl)
      requires Tracking(Snap(), conflict, seen, hi, start, confl)
      modifies this`ca, this`seen
      ensures Extends(old(Snap()), Snap()) && SolverInv(Snap(), |trailLim|)
      ensures Analysis(Snap(), seen, rest, hi, pathC) && Cut(Snap(), seen) && pathC > 0
      ensures Traced(Snap(), conflict, seen, hi) && AllBypassed(Snap(), conflict, hi)
    {
      hide Extends, SolverInv, TrailInv, Analysis, Pending, Cut, ReadyLit, TrailValues, TrailLevels, Grows, Covered,
           Tracking, Traced, AllBypassed, AddedUpTo, Added, Reordered;
      ghost var s := Snap();
      PrepareReason(confl, start, rest0, pathC0, hi);
      ghost var t, before := Snap(), seen;
      ExtendsReordered(s, t);
      TrackingSame(s, t, conflict, seen, hi, start, confl);
      PendingBound(t, seen, hi, pathC0, start, confl);
      SolverInvFacts(t, |trailLim|);
      PendingReady(t, seen, hi, pathC0, start, confl);
      rest, pathC := MarkClause(confl, start, rest0, pathC0, hi);
      AfterMarking(t, before, seen, rest, hi, pathC0, pathC, start, confl);
      AddedWhole(t, before, seen, hi, pathC0, start, confl);
      TrackingMarked(t, conflict, before, seen, hi, pathC0, start, confl);
    }

    /** One round: marks the pending clause and takes the last marked literal out of the marks. */
    method ResolveRound(confl: nat, start: nat, rest0: Clause, pathC0: nat, hi0: nat, ghost conflict: nat)
        returns (rest: Clause, pathC: nat, hi: nat)
      requires SolverInv(Snap(), |trailLim|) && |trailLim| > 0
      requires Analysis(Snap(), seen, rest0, hi0, pathC0) && Pending(Snap(), seen, hi0, pathC0, start, confl)
      requires Tracking(Snap(), conflict, seen, hi0, start, confl)
      modifies this`ca, this`seen
      ensures Extends(old(Snap()), Snap()) && SolverInv(Snap(), |trailLim|)
      ensures hi < hi0 && RoundDone(Snap(), seen, rest, hi, pathC) && Popped(Snap(), conflict, seen, hi)
    {
      hide Extends, SolverInv, TrailInv, Analysis, Cut, RoundDone, Pending, TrailValues, TrailLevels, Tracking, Traced,
           AllBypassed, Popped;
      rest, pathC := MarkPending(confl, start, rest0, pathC0, hi0, conflict);
      SolverInvFacts(Snap(), |trailLim|);
      hi := PopMarked(hi0, rest, pathC, conflict);
      pathC := pathC - 1;
    }

    /** Takes the last marked literal of the trail out of the marks. */
    method PopMarked(hi0: nat, ghost rest: Clause, ghost pathC: nat, ghost conflict: nat) returns (hi: nat)
      requires TrailInv(Snap()) && |trailLim| > 0
      requires Analysis(Snap(), seen, rest, hi0, pathC) && Cut(Snap(), seen) && pathC > 0
      requires Traced(Snap(), conflict, seen, hi0) && AllBypassed(Snap(), conflict, hi0)
      modifies this`seen
      ensures hi < hi0 && RoundDone(Snap(), seen, rest, hi, pathC - 1) && Popped(Snap(), conflict, seen, hi)
    {
      hide TrailInv, Analysis, Cut, RoundDone, Traced, AllBypassed, Popped;
      hi := ScanBack(hi0, rest, pathC);
      RoundEnds(Snap(), seen, rest, hi, pathC);
      PopTraced(Snap(), conflict, seen, hi0, hi);
      hi := hi - 1;
      seen := seen[trail[hi].v := false];
    }

    /** A binary reason clause is turned so that the literal it implied comes first. */
    method PrepareReason(confl: nat, start: nat, ghost rest: Clause, ghost pathC: nat, ghost hi: nat)
      requires SolverInv(Snap(), |trailLim|)
      requires Analysis(Snap(), seen, rest, hi, pathC) && Pending(Snap(), seen, hi, pathC, start, confl)
      modifies this`ca
      ensures Extends(old(Snap()), Snap()) && SolverInv(Snap(), |trailLim|)
      ensures Analysis(Snap(), seen, rest, hi, pathC) && Pending(Snap(), seen, hi, pathC, start, confl)
      ensures confl < |ca| && (start == 1 && |ca[confl]| == 2 ==> Value(assigns, ca[confl][0]) != LFalse)
    {
      hide Extends, SolverInv, TrailInv, Analysis, Pending, TrailValues, TrailLevels;
      ghost var s := Snap();
      SolverInvFacts(s, |trailLim|);
      PendingBound(s, seen, hi, pathC, start, confl);
      ExtendsItself(s);
      if start == 1 {
        PendingClause(s, seen, hi, pathC, confl);
        FrontReason(confl);
        PendingPermuted(s, Snap(), seen, rest, hi, pathC, confl);
      }
    }

    /** Resolves the conflict clause with reasons, latest literal first, until one literal p of the
        current level is left. */
    method FirstUip(confl0: nat) returns (p: Lit, rest: Clause)
      requires SolverInv(Snap(), |trailLim|) && |trailLim| > 0 && ConflictClause(Snap(), confl0)
      requires |seen| == |vardata| && forall v :: !Seen(seen, v)
      modifies this`ca, this`seen
      ensures Extends(old(Snap()), Snap()) && SolverInv(Snap(), |trailLim|)
      ensures UipFound(Snap(), seen, p, rest)
      ensures IsFirstUip(old(Snap()), confl0, p, Vars(rest))
    {
      hide Extends, SolverInv, TrailInv, Analysis, Pending, UipFound, ConflictClause, Cut, RoundDone, TrailValues, TrailLevels,
           Tracking, Popped, IsFirstUip, Vars, Reordered;
      ghost var s0 := Snap();
      ExtendsItself(s0);
      SolverInvFacts(s0, |trailLim|);
      var confl: nat, start: nat, pathC: nat, hi: nat := confl0, 0, 0, |trail|;
      rest := [];
      StartAnalysis(s0, seen);
      StartTracking(s0, confl0, seen);
      while true
        invariant Extends(s0, Snap()) && SolverInv(Snap(), |trailLim|)
        invariant Analysis(Snap(), seen, rest, hi, pathC) && Pending(Snap(), seen, hi, pathC, start, confl)
        invariant Tracking(Snap(), confl0, seen, hi, start, confl)
        decreases hi
      {
        ghost var s := Snap();
        rest, pathC, hi := ResolveRound(confl, start, rest, pathC, hi, confl0);
        ghost var t := Snap();
        ExtendsTransitive(s0, s, t);
        RoundFacts(t, seen, rest, hi, pathC);
        p := trail[hi];
        if pathC == 0 {
          UipReached(t, seen, rest, hi);
          UipIsFirst(s0, t, confl0, seen, rest, hi);
          return;
        }
        NextPending(t, seen, rest, hi, pathC);
        NextTracking(t, confl0, seen, rest, hi, pathC);
        confl, start := Reason(vardata, p.v), 1;
      }
    }

    // ----------------------------------------------------- minimisation

    /** Marks the literal q and puts it on the work list. */
    method QueueLit(q: Lit, work0: seq<Lit>, ghost x: Lit, ghost before: seq<bool>, ghost kept: set<nat>, ghost top: nat)
        returns (work: seq<Lit>)
      requires Expanding(Snap(), before, seen, kept, work0, [x], analyzeToClear, top)
      requires q.v < |seen| && !seen[q.v] && Value(assigns, q) == LFalse && Reason(vardata, q.v) != NO_REASON
      modifies this`seen, this`analyzeToClear
      ensures Expanding(Snap(), before, seen, kept, work, [x], analyzeToClear, top) && work == work0 + [q]
      ensures seen == old(seen)[q.v := true] && Unmarked(seen) < Unmarked(old(seen)) && Grows(old(seen), seen)
      ensures analyzeToClear == old(analyzeToClear) + [q]
    {
      PushWork(Snap(), before, seen, kept, work0, [x], analyzeToClear, top, q);
      UnmarkedDrops(seen, q.v);
      hide Expanding, Unmarked;
      seen := seen[q.v := true];
      work := work0 + [q];
      analyzeToClear := analyzeToClear + [q];
    }

    /** Expands the reason of x: its unmarked literals are marked and queued, unless one of them
        cannot be redundant. */
    method ExpandReason(cr: nat, x: Lit, work0: seq<Lit>, levels: set<nat>,
                        ghost before: seq<bool>, ghost kept: set<nat>, ghost top: nat, ghost s0: State, ghost vs: set<nat>)
        returns (ok: bool, work: seq<Lit>)
      requires cr == Reason(vardata, x.v) && ReasonReady(Snap(), x.v)
      requires Expanding(Snap(), before, seen, kept, work0, [x], analyzeToClear, top)
      requires Reordered(s0, Snap()) && TrailInv(s0) && levels == Slots(s0, vs) && MarksFor(s0, 2, vs, seen)
      requires DistinctVars(ca[cr])
      modifies this`seen, this`analyzeToClear
      ensures MarksFor(s0, 2, vs, seen)
      ensures RemovableVar(s0, vs, x.v) && AllRemovable(s0, vs, work0) ==> ok && AllRemovable(s0, vs, work)
      ensures Expanding(Snap(), before, seen, kept, work, if ok then [] else [x], analyzeToClear, top)
      ensures Unmarked(seen) < Unmarked(old(seen)) || (seen == old(seen) && work == work0)
      ensures top <= |old(analyzeToClear)| <= |analyzeToClear| && analyzeToClear[..top] == old(analyzeToClear)[..top]
    {
      work := work0;
      var i := 1;
      ghost var t := Snap();
      NoneCovered(t, seen, ca[cr], 1);
      ReadyFacts(s0, t, x, cr);
      ExpandingSize(t, before, seen, kept, work, [x], analyzeToClear, top);
      SoughtStart(s0, vs, seen, x, work);
      hide AllCovered, Unmarked, Grows, TrailInv, MarksFor, RemovableVar, AllRemovable, Slots, Reordered, Expanding, ReasonReady,
           MarksSince, DistinctVars, Sought;
      while i < |ca[cr]|
        invariant 1 <= i <= |ca[cr]| && Snap() == t
        invariant Expanding(t, before, seen, kept, work, [x], analyzeToClear, top)
        invariant Unmarked(seen) < Unmarked(old(seen)) || (seen == old(seen) && work == work0)
        invariant AllCovered(t, seen, ca[cr], 1, i)
        invariant Sought(s0, vs, seen, x, work0, work)
        invariant |old(analyzeToClear)| <= |analyzeToClear| && analyzeToClear[..top] == old(analyzeToClear)[..top]
      {
        var q := ca[cr][i];
        ExpandingSize(t, before, seen, kept, work, [x], analyzeToClear, top);
        GrowsSelf(seen);
        CoverNext(t, seen, seen, ca[cr], 1, i);
        if !seen[q.v] && Level(vardata, q.v) > 0 {
          SoughtNext(s0, t, vs, seen, x, cr, i, work0, work);
          if Reason(vardata, q.v) != NO_REASON && Level(vardata, q.v) % 32 in levels {
            work := QueueLit(q, work, x, before, kept, top);
          } else {
            SoughtEnd(s0, vs, seen, x, work0, work);
            return false, work;
          }
        }
        i := i + 1;
      }
      SoughtEnd(s0, vs, seen, x, work0, work);
      CoveredEach(t, seen, ca[cr], 1);
      ReadyJustified(t, seen, x, cr);
      Expanded(t, before, seen, kept, work, x, analyzeToClear, top);
      return true, work;
    }

    /** Takes back the marks made since `top`. */
    method UndoMarks(top: nat, ghost before: seq<bool>)
      requires MarksSince(before, seen, analyzeToClear, top)
      modifies this`seen, this`analyzeToClear
      ensures seen == before && analyzeToClear == old(analyzeToClear)[..top]
    {
      var j := top;
      while j < |analyzeToClear|
        invariant top <= j <= |analyzeToClear| && analyzeToClear == old(analyzeToClear) && |seen| == |old(seen)|
        invariant forall v :: Seen(seen, v) <==> Seen(old(seen), v) && !VarIn(analyzeToClear[top..j], v)
      {
        var l := analyzeToClear[j];
        assert analyzeToClear[top..j + 1] == analyzeToClear[top..j] + [l];
        forall v ensures VarIn(analyzeToClear[top..j + 1], v) <==> VarIn(analyzeToClear[top..j], v) || v == l.v {
          VarInAppend(analyzeToClear[top..j], l, v);
        }
        seen := seen[l.v := false];
        j := j + 1;
      }
      assert analyzeToClear[top..j] == analyzeToClear[top..];
      Restored(before, old(seen), analyzeToClear, top, seen);
      analyzeToClear := analyzeToClear[..top];
    }

    /** Takes the last literal off the work list and expands its reason. */
    method ExpandTop(work0: seq<Lit>, levels: set<nat>, ghost before: seq<bool>, ghost kept: set<nat>, ghost top: nat,
                     ghost s0: State, ghost vs: set<nat>)
        returns (ok: bool, work: seq<Lit>)
      requires SolverInv(Snap(), |trailLim|) && |work0| > 0
      requires Expanding(Snap(), before, seen, kept, work0, [], analyzeToClear, top)
      requires Reordered(s0, Snap()) && TrailInv(s0) && levels == Slots(s0, vs) && MarksFor(s0, 2, vs, seen)
      modifies this`ca, this`seen, this`analyzeToClear
      ensures Reordered(s0, Snap()) && MarksFor(s0, 2, vs, seen)
      ensures AllRemovable(s0, vs, work0) ==> ok && AllRemovable(s0, vs, work)
      ensures Extends(old(Snap()), Snap()) && SolverInv(Snap(), |trailLim|)
      ensures ok ==> Expanding(Snap(), before, seen, kept, work, [], analyzeToClear, top)
      ensures ok ==> Unmarked(seen) < Unmarked(old(seen)) || (seen == old(seen) && |work| < |work0|)
      ensures MarksSince(before, seen, analyzeToClear, top)
      ensures top <= |old(analyzeToClear)| <= |analyzeToClear| && analyzeToClear[..top] == old(analyzeToClear)[..top]
    {
      hide Extends, SolverInv, TrailInv, Expanding, TrailValues, TrailLevels, ReasonReady, MarksSince, Reordered, MarksFor,
           RemovableVar, Slots;
      ghost var s := Snap();
      SolverInvFacts(s, |trailLim|);
      WorkTop(s, before, seen, kept, work0, analyzeToClear, top);
      var x := work0[|work0| - 1];
      var cr := Reason(vardata, x.v);
      PopWork(s, before, seen, kept, work0, analyzeToClear, top);
      work := work0[..|work0| - 1];
      FrontReason(cr);
      ghost var t := Snap();
      ExpandingPermuted(s, t, before, seen, kept, work, [x], analyzeToClear, top);
      FrontedReason(t, x);
      ExtendsReordered(s, t);
      ReorderedTransitive(s0, s, t);
      ReadyDistinct(t, x);
      ok, work := ExpandReason(cr, x, work, levels, before, kept, top, s0, vs);
      ExpandingSize(t, before, seen, kept, work, if ok then [] else [x], analyzeToClear, top);
    }

    /** Whether p follows from the other literals of a clause over vs. On success everything marked on the
        way is justified without p; on failure the marks are as before. */
    method LitRedundant(p: Lit, levels: set<nat>, ghost kept: set<nat>, ghost vs: set<nat>) returns (redundant: bool)
      requires SolverInv(Snap(), |trailLim|)
      requires MarksKnown(Snap(), seen, analyzeToClear) && MarksJustified(Snap(), seen, kept, [])
      requires p.v < |vardata| && Value(assigns, p) == LFalse && Reason(vardata, p.v) != NO_REASON
      requires p.v in vs && kept <= vs && levels == Slots(Snap(), vs) && MarksFor(Snap(), 2, vs, seen)
      modifies this`ca, this`seen, this`analyzeToClear
      ensures redundant <==> RemovableVar(old(Snap()), vs, p.v)
      ensures MarksFor(old(Snap()), 2, vs, seen)
      ensures !redundant ==> seen == old(seen)
      ensures Extends(old(Snap()), Snap()) && SolverInv(Snap(), |trailLim|)
      ensures MarksKnown(Snap(), seen, analyzeToClear) && Grows(old(seen), seen)
      ensures MarksJustified(Snap(), seen, if redundant then kept - {p.v} else kept, [])
    {
      hide Extends, SolverInv, TrailInv, Expanding, MarksJustified, MarksKnown, Grows, MarksSince, TrailValues, TrailLevels,
           Reordered, MarksFor, RemovableVar, Slots;
      ghost var s0, before := Snap(), seen;
      var stack, top := [p], |analyzeToClear|;
      SolverInvFacts(s0, |trailLim|);
      KnownSize(s0, seen, analyzeToClear);
      StartWork(s0, seen, kept, p, analyzeToClear);
      ExtendsItself(s0);
      ExtendsReordered(s0, s0);
      ghost var k := kept - {p.v};
      while |stack| > 0
        invariant Extends(s0, Snap()) && SolverInv(Snap(), |trailLim|)
        invariant Expanding(Snap(), before, seen, k, stack, [], analyzeToClear, top)
        invariant top <= |analyzeToClear| && analyzeToClear[..top] == old(analyzeToClear)
        invariant Reordered(s0, Snap()) && MarksFor(s0, 2, vs, seen)
        invariant RemovableVar(s0, vs, p.v) ==> AllRemovable(s0, vs, stack)
        decreases Unmarked(seen), |stack|
      {
        ghost var s := Snap();
        var ok;
        ok, stack := ExpandTop(stack, levels, before, k, top, s0, vs);
        ExtendsTransitive(s0, s, Snap());
        if !ok {
          UndoMarks(top, before);
          MarksRestored(s0, Snap(), before, kept, analyzeToClear);
          return false;
        }
      }
      WorkDone(Snap(), before, seen, k, analyzeToClear, top);
      SearchedRemovable(s0, Snap(), vs, seen, kept, p);
      return true;
    }

    /** ccmin mode 1: the reason of x holds nothing that is not marked or fixed. */
    method ReasonCovered(x: Lit) returns (r: bool)
      requires TrailInv(Snap()) && |seen| == |vardata|
      requires Value(assigns, x) == LFalse && Reason(vardata, x.v) != NO_REASON && Seen(seen, x.v)
      ensures r <==> Justified(Snap(), seen, x.v)
    {
      var cr := Reason(vardata, x.v);
      WorkReason(Snap(), x);
      ClauseVars(Snap(), cr);
      var k := if |ca[cr]| == 2 then 0 else 1;
      while k < |ca[cr]|
        invariant (if |ca[cr]| == 2 then 0 else 1) <= k <= |ca[cr]|
        invariant forall h :: (if |ca[cr]| == 2 then 0 else 1) <= h < k ==> Covered(Snap(), seen, ca[cr][h])
      {
        if !seen[ca[cr][k].v] && Level(vardata, ca[cr][k].v) > 0 {
          assert ca[cr][k] in ca[cr] && !Covered(Snap(), seen, ca[cr][k]);
          return false;
        }
        k := k + 1;
      }
      BasicJustified(Snap(), seen, x);
      return true;
    }

    /** Whether the literal x of the learnt clause can go, in the configured mode. */
    method Redundant(x: Lit, levels: set<nat>, ghost kept: set<nat>, ghost vs: set<nat>) returns (redundant: bool)
      requires SolverInv(Snap(), |trailLim|)
      requires MarksKnown(Snap(), seen, analyzeToClear) && MarksJustified(Snap(), seen, kept, [])
      requires x.v < |vardata| && Value(assigns, x) == LFalse
      requires x.v in vs && kept <= vs && levels == Slots(Snap(), vs) && MarksFor(Snap(), ccminMode, vs, seen)
      modifies this`ca, this`seen, this`analyzeToClear
      ensures redundant <==> Superfluous(old(Snap()), ccminMode, vs, x.v)
      ensures MarksFor(old(Snap()), ccminMode, vs, seen)
      ensures Extends(old(Snap()), Snap()) && SolverInv(Snap(), |trailLim|)
      ensures MarksKnown(Snap(), seen, analyzeToClear) && Grows(old(seen), seen)
      ensures MarksJustified(Snap(), seen, if redundant then kept - {x.v} else kept, [])
    {
      hide Extends, SolverInv, MarksKnown, TrailInv, Superfluous, Slots, RemovableVar, MarksJustified;
      ExtendsItself(Snap());
      SolverInvFacts(Snap(), |trailLim|);
      KnownSize(Snap(), seen, analyzeToClear);
      DeepIsRemovable(Snap(), vs, x.v);
      if Reason(vardata, x.v) == NO_REASON || (ccminMode != 1 && ccminMode != 2) { WithoutReason(Snap(), ccminMode, vs, x.v); }
      if Reason(vardata, x.v) == NO_REASON {
        return false;
      }
      if ccminMode == 2 {
        redundant := LitRedundant(x, levels, kept, vs);
      } else if ccminMode == 1 {
        redundant := ReasonCovered(x);
        if redundant { JustifiedNotKept(Snap(), seen, kept, x.v); }
        JustifiedDirect(Snap(), ccminMode, vs, seen, x);
      } else {
        redundant := false;
      }
    }

    /** The levels of the learnt clause, as the 32-slot abstraction that lets litRedundant give up early. */
    method AbstractLevels(c: Clause) returns (levels: set<nat>)
      ensures levels == set k | 1 <= k < |c| :: Level(vardata, c[k].v) % 32
    {
      levels := {};
      var h := 1;
      while h < |c|
        invariant 1 <= h && (|c| > 0 ==> h <= |c|)
        invariant levels == set k | 1 <= k < h && k < |c| :: Level(vardata, c[k].v) % 32
      {
        levels := levels + {Level(vardata, c[h].v) % 32};
        h := h + 1;
      }
    }

    /** Drops the redundant literals of the learnt clause in place, and no others. */
    method FilterLearnt(c0: Clause, levels: set<nat>, ghost full: seq<bool>) returns (out: Clause, j: nat)
      requires SolverInv(Snap(), |trailLim|) && |c0| >= 1 && DistinctVars(c0)
      requires forall k :: 0 <= k < |c0| ==> c0[k].v < |vardata| && Value(assigns, c0[k]) == LFalse
      requires MarksKnown(Snap(), seen, analyzeToClear) && Grows(full, seen)
      requires MarksJustified(Snap(), seen, Remaining(c0, 1, 1), [])
      requires levels == Slots(Snap(), Vars(c0[1..])) && MarksFor(Snap(), ccminMode, Vars(c0[1..]), seen)
      modifies this`ca, this`seen, this`analyzeToClear
      ensures Extends(old(Snap()), Snap()) && SolverInv(Snap(), |trailLim|)
      ensures Filtered(c0, out, j, |out|) && Subsequence(c0, out[..j])
      ensures Vars(out[1..j]) == Thinned(old(Snap()), ccminMode, Vars(c0[1..]))
      ensures MarksKnown(Snap(), seen, analyzeToClear) && Grows(full, seen)
      ensures MarksJustified(Snap(), seen, Remaining(out, j, |out|), [])
    {
      hide Extends, SolverInv, MarksKnown, MarksJustified, Grows, Remaining, Picked, Subsequence, Vars, Superfluous, Slots,
           MarksFor, Reordered, KeptSoFar, Thinned;
      ghost var s0, vs := Snap(), Vars(c0[1..]);
      ghost var at: seq<nat> := [0];
      assert Picked(c0, c0, at, 1) by { FirstPicked(c0); }
      out := c0;
      var i := 1;
      j := 1;
      ExtendsItself(s0);
      ExtendsReordered(s0, s0);
      KeptNone(s0, ccminMode, vs, c0, out);
      while i < |out|
        invariant Extends(s0, Snap()) && SolverInv(Snap(), |trailLim|) && Reordered(s0, Snap())
        invariant Filtered(c0, out, j, i) && |at| == j && Picked(c0, out, at, i)
        invariant MarksFor(s0, ccminMode, vs, seen) && KeptSoFar(s0, ccminMode, vs, c0, i, Vars(out[1..j]))
        invariant MarksKnown(Snap(), seen, analyzeToClear) && Grows(full, seen)
        invariant MarksJustified(Snap(), seen, Remaining(out, j, i), [])
      {
        RemainingWithin(c0, out, j, i);
        ghost var s, before, out0, j0 := Snap(), seen, out, j;
        MarksForSame(s0, s, ccminMode, vs, seen);
        var redundant := Redundant(out[i], levels, Remaining(out, j, i), vs);
        ExtendsTransitive(s0, s, Snap());
        ExtendsReordered(s0, Snap());
        MarksForSame(s, s0, ccminMode, vs, seen);
        SuperfluousSame(s0, s, ccminMode, vs, c0[i].v);
        GrowsTransitive(full, before, seen);
        PickedNext(c0, out, at, i);
        out, j := FilterOne(c0, out, j, i, redundant);
        KeptNext(s0, ccminMode, vs, c0, i, out0, j0, out, j, redundant);
        if !redundant { at := at + [i]; }
        i := i + 1;
      }
      PickedAll(c0, out, at, j);
      assert out[..j][1..] == out[1..j];
      KeptAll(s0, ccminMode, c0, out[..j]);
    }

    method FilterOne(ghost c0: Clause, out0: Clause, j0: nat, i: nat, redundant: bool) returns (out: Clause, j: nat)
      requires DistinctVars(c0) && Filtered(c0, out0, j0, i) && i < |out0|
      requires MarksJustified(Snap(), seen, if redundant then Remaining(out0, j0, i) - {out0[i].v} else Remaining(out0, j0, i), [])
      ensures Filtered(c0, out, j, i + 1) && |out| == |out0|
      ensures MarksJustified(Snap(), seen, Remaining(out, j, i + 1), [])
      ensures out == if redundant then out0 else out0[j0 := out0[i]]
      ensures j == if redundant then j0 else j0 + 1
    {
      hide MarksJustified;
      out, j := out0, j0;
      if !redundant {
        FilterKeep(c0, out0, j0, i);
        MoreKept(Snap(), seen, Remaining(out0, j0, i), Remaining(out0[j0 := out0[i]], j0 + 1, i + 1));
        out := out[j := out[i]];
        j := j + 1;
      } else {
        FilterDrop(c0, out0, j0, i);
        MoreKept(Snap(), seen, Remaining(out0, j0, i) - {out0[i].v}, Remaining(out0, j0, i + 1));
      }
    }

    /** Minimises the clause of the first UIP: what is superfluous is dropped, the rest stays in order. */
    method Minimize(c0: Clause, ghost p: Lit, ghost rest: Clause) returns (out: Clause)
      requires SolverInv(Snap(), |trailLim|) && c0 == [p.Not()] + rest
      requires UipFound(Snap(), seen, p, rest)
      modifies this`ca, this`seen, this`analyzeToClear
      ensures Extends(old(Snap()), Snap()) && SolverInv(Snap(), |trailLim|)
      ensures LearntOk(Snap(), out) && out[0] == p.Not() && Subsequence(c0, out)
      ensures Vars(out[1..]) == Thinned(old(Snap()), ccminMode, Vars(rest))
      ensures MarksKnown(Snap(), seen, analyzeToClear)
    {
      ghost var s0, full := Snap(), seen;
      SolverInvFacts(s0, |trailLim|);
      UipLits(s0, seen, p, rest);
      UipMarks(s0, seen, p, rest);
      analyzeToClear := c0;
      assert c0[1..1] + c0[1..] == rest && c0[1..] == rest;
      UipMarksFor(s0, ccminMode, seen, p, rest);
      SlotsOfClause(s0, c0);
      hide Vars, Thinned, Slots, MarksFor, Subsequence;
      hide Extends, SolverInv, TrailInv, MarksKnown, MarksJustified, UipFound, Grows, LearntOk, Filtered, TrailValues, TrailLevels;
      GrowsItself(seen);
      var levels := AbstractLevels(c0);
      var j;
      out, j := FilterLearnt(c0, levels, full);
      FilterEnd(c0, out, j, p, rest);
      assert out[..j][1..] == out[1..j];
      out := out[..j];
      UipPermuted(s0, Snap(), full, p, rest);
      KnownSize(Snap(), seen, analyzeToClear);
      SolverInvFacts(Snap(), |trailLim|);
      GrowsSize(full, seen);
      MinimizedClause(Snap(), full, seen, p, rest, out);
    }

    /** Number of decision levels among the literals of a clause. */
    method ComputeLbd(c: Clause) returns (lbd: nat)
      ensures lbd == |LevelsOf(Snap(), Vars(c))|
    {
      var levels: set<nat> := {};
      var i := 0;
      while i < |c|
        invariant 0 <= i <= |c| && levels == LevelsOf(Snap(), Vars(c[..i]))
      {
        assert c[..i + 1] == c[..i] + [c[i]];
        VarsSnoc(c[..i], c[i]);
        levels := levels + {Level(vardata, c[i].v)};
        i := i + 1;
      }
      assert c[..i] == c;
      lbd := |levels|;
    }

    /** Resolves the learnt clause with binary clauses of its asserting literal. */
    method MinimizeBinary(c: Clause) returns (out: Clause)
      requires SolverInv(Snap(), |trailLim|) && LearntOk(Snap(), c)
      ensures LearntOk(Snap(), out) && out[0] == c[0]
      ensures Vars(out[1..]) == Resolved(Snap(), c[0], Vars(c[1..]), lbLbdMinimizingClause)
    {
      ghost var s := Snap();
      ClauseNonEmpty(s, c);
      HeadAndRest(c);
      hide SolverInv, LearntOk, Resolvable, Vars, VarIn, LevelsOf;
      var lbd := ComputeLbd(c);
      if lbd > lbLbdMinimizingClause { return c; }
      var gone := FindResolvable(c);
      MarkedVars(c);
      if |gone| == 0 { return c; }
      GoneInClause(c, gone);
      out := SortOut(c, gone);
      GoneResolvable(s, c, out, gone);
      ResolvedClause(s, c, out);
      SortedVars(c, out, gone);
    }

    /** Variables of the clause, other than the first, that a binary clause resolves away: all there are. */
    method FindResolvable(c: Clause) returns (gone: set<nat>)
      requires SolverInv(Snap(), |trailLim|) && LearntOk(Snap(), c)
      ensures forall v :: v in gone <==> v in Vars(c[1..]) && Resolvable(Snap(), c[0], v)
    {
      hide SolverInv, LearntOk, Resolvable, VarIn, ByBlocker, Vars;
      ghost var s := Snap();
      ClauseNonEmpty(s, c);
      LearntHead(s, c);
      var p, marked := c[0].Not(), Vars(c[1..]);
      ghost var vs := marked;
      gone := {};
      var k := 0;
      NoBlocker(s, watchesBin[p]);
      while k < |watchesBin[p]|
        invariant 0 <= k <= |watchesBin[p]| && marked == vs - gone
        invariant forall v :: v in gone <==> v in vs && ByBlocker(s, watchesBin[p], k, v)
      {
        var imp := watchesBin[p][k].blocker;
        NextBlocker(s, watchesBin[p], k);
        if imp.v in marked && Value(assigns, imp) == LTrue {
          gone := gone + {imp.v};
          marked := marked - {imp.v};
        }
        k := k + 1;
      }
      forall v ensures ByBlocker(s, watchesBin[p], k, v) <==> Resolvable(s, c[0], v) { BlockersResolve(s, c, v); }
    }

    /** Moves the resolved literals behind the others, by swaps, and cuts them off. */
    method SortOut(c: Clause, gone: set<nat>) returns (out: Clause)
      requires |c| >= 1 && DistinctVars(c)
      requires forall v :: v in gone ==> v != c[0].v && VarIn(c, v)
      ensures |out| >= 1 && out[0] == c[0] && DistinctVars(out)
      ensures forall k :: 1 <= k < |out| ==> out[k] in c[1..]
      ensures forall x :: x in out <==> x in c && x.v !in gone
    {
      GoneBound(c, gone);
      out := c;
      var i: nat, l: nat := 1, |c| - 1;
      while i < |out| - |gone|
        invariant Sorting(c, out, gone, i, l)
        decreases l - i
      {
        if out[i].v in gone {
          SortingSwap(c, out, gone, i, l);
          out := out[l := out[i]][i := out[l]];
          l := l - 1;
        } else {
          i := i + 1;
        }
      }
      SortingDone(c, out, gone, i, l);
      out := out[..i];
    }

    /** Brings the literal of the highest remaining level to index 1; that level is where to return. */
    method BacktrackLevel(c: Clause) returns (out: Clause, btlevel: nat)
      requires LearntOk(Snap(), c)
      ensures Asserting(Snap(), out, btlevel) && out[0] == c[0] && Vars(out[1..]) == Vars(c[1..])
    {
      out := c;
      if |c| == 1 { return c, 0; }
      var maxI, i := 1, 2;
      while i < |c|
        invariant 1 <= maxI < |c| && 2 <= i <= |c| && maxI < i
        invariant forall k :: 1 <= k < i ==> Level(vardata, c[k].v) <= Level(vardata, c[maxI].v)
      {
        if Level(vardata, c[i].v) > Level(vardata, c[maxI].v) { maxI := i; }
        i := i + 1;
      }
      btlevel := Level(vardata, c[maxI].v);
      out := c[maxI := c[1]][1 := c[maxI]];
      SwapAsserting(Snap(), c, maxI);
      SwapVars(c, maxI);
    }

    /** Resets all marks. */
    method ClearMarks()
      requires MarksKnown(Snap(), seen, analyzeToClear)
      modifies this`seen, this`analyzeToClear
      ensures |seen| == |vardata| && forall v :: !Seen(seen, v)
    {
      var j := 0;
      while j < |analyzeToClear|
        invariant 0 <= j <= |analyzeToClear| && analyzeToClear == old(analyzeToClear) && |seen| == |vardata|
        invariant forall v :: Seen(seen, v) ==> VarIn(analyzeToClear[j..], v)
      {
        var l := analyzeToClear[j];
        ghost var before := seen;
        seen := seen[l.v := false];
        forall v | Seen(seen, v) ensures VarIn(analyzeToClear[j + 1..], v) {
          assert Seen(before, v);
          var k :| 0 <= k < |analyzeToClear[j..]| && analyzeToClear[j..][k].v == v;
          assert analyzeToClear[j + 1..][k - 1].v == v;
        }
        j := j + 1;
      }
      analyzeToClear := [];
    }

    /** Conflict analysis: the learnt clause and the level to return to. */
    method Analyze(confl: nat) returns (learnt: Clause, btlevel: nat)
      requires SolverInv(Snap(), |trailLim|) && |trailLim| > 0 && ConflictClause(Snap(), confl)
      requires |seen| == |vardata| && forall v :: !Seen(seen, v)
      modifies this`ca, this`seen, this`analyzeToClear
      ensures Extends(old(Snap()), Snap()) && SolverInv(Snap(), |trailLim|)
      ensures Asserting(Snap(), learnt, btlevel)
      ensures LearntFrom(old(Snap()), confl, ccminMode, lbSizeMinimizingClause, lbLbdMinimizingClause, learnt)
      ensures |seen| == |vardata| && forall v :: !Seen(seen, v)
    {
      hide Extends, SolverInv, TrailInv, MarksKnown, UipFound, LearntOk, Asserting, ConflictClause, IsFirstUip, Thinned, Resolved,
           Vars, Subsequence, Reordered, LearntFrom;
      ghost var s0 := Snap();
      var p, rest := FirstUip(confl);
      ghost var s1 := Snap();
      ExtendsReordered(s0, s1);
      learnt := Minimize([p.Not()] + rest, p, rest);
      ghost var s2 := Snap();
      ExtendsTransitive(s0, s1, s2);
      ExtendsReordered(s0, s2);
      ThinnedSame(s0, s1, ccminMode, Vars(rest));
      ghost var vs := Thinned(s0, ccminMode, Vars(rest));
      TailSize(s2, learnt);
      if |learnt| <= lbSizeMinimizingClause {
        learnt := MinimizeBinary(learnt);
        ResolvedSame(s0, s2, p.Not(), vs, lbLbdMinimizingClause);
      }
      learnt, btlevel := BacktrackLevel(learnt);
      ClearMarks();
      LearntIs(s0, s2, confl, ccminMode, lbSizeMinimizingClause, lbLbdMinimizingClause, p, Vars(rest), learnt, btlevel);
    }

    // ----------------------------------------------------- backtracking and learning

    /** Returns to the given level: later assignments are undone and their variables can be picked again. */
    method CancelUntil(level: nat)
      requires TrailInv(Snap())
      modifies this`assigns, this`trail, this`trailLim, this`qhead, this`orderHeap
      ensures level >= |old(trailLim)| ==> Snap() == old(Snap()) && orderHeap == old(orderHeap)
      ensures level < |old(trailLim)| ==>
                && Snap() == Cancel(old(Snap()), level)
                && HoldsBoth(old(orderHeap), old(trail)[old(trailLim)[level]..], orderHeap)
    {
      if DecisionLevel() > level {
        hide TrailInv, Unassign, HoldsBoth, VarIn;
        CancelReady(Snap(), level, orderHeap);
        ghost var a0 := assigns;
        var lim := trailLim[level];
        var c := |trail|;
        while c > lim
          invariant lim <= c <= |trail| && |assigns| == |a0|
          invariant assigns == Unassign(a0, trail[c..])
          invariant HoldsBoth(old(orderHeap), trail[c..], orderHeap)
          modifies this`assigns, this`orderHeap
        {
          c := c - 1;
          var x := trail[c].v;
          UnassignOne(a0, trail, c);
          HoldsOneMore(old(orderHeap), trail, c, orderHeap);
          assigns := assigns[x := LUndef];
          orderHeap := orderHeap + {x};
        }
        qhead := lim;
        trail := trail[..lim];
        trailLim := trailLim[..level];
      }
    }

    /** Puts a clause into the arena and watches its first two literals. */
    method AttachClause(c: Clause)
      requires Attachable(Snap(), c)
      modifies this`ca, this`watches, this`watchesBin
      ensures Snap() == AttachNew(old(Snap()), c)
    {
      var cr := |ca|;
      ca := ca + [c];
      if |c| == 2 {
        watchesBin := watchesBin[c[0].Not() := watchesBin[c[0].Not()] + [Watcher(cr, c[1])]];
        watchesBin := watchesBin[c[1].Not() := watchesBin[c[1].Not()] + [Watcher(cr, c[0])]];
      } else {
        watches := watches[c[0].Not() := watches[c[0].Not()] + [Watcher(cr, c[1])]];
        watches := watches[c[1].Not() := watches[c[1].Not()] + [Watcher(cr, c[0])]];
      }
    }

    ghost predicate Searching()
      reads this
    {
      && SearchInv(Snap(), formula, assumptions)
      && HeapOk(Snap(), orderHeap)
      && |seen| == |vardata| && NoMarks(seen)
    }

    /** Learns from a conflict: analysis, return to the right level, and assertion of the new literal. */
    method LearnFrom(confl: nat, ghost s: State)
      requires SearchInv(s, formula, assumptions) && Extends(s, Snap()) && HeapOk(Snap(), orderHeap)
      requires SolverInv(Snap(), |trailLim|) && |trailLim| > 0 && ConflictClause(Snap(), confl)
      requires |seen| == |vardata| && NoMarks(seen)
      modifies this`ca, this`assigns, this`vardata, this`trail, this`trailLim, this`qhead, this`watches, this`watchesBin,
               this`seen, this`analyzeToClear, this`orderHeap
      ensures Searching() && SearchRank(Snap(), assumptions) < SearchRank(s, assumptions)
      ensures |vardata| == |old(vardata)|
      ensures Learns(old(Snap()), confl, ccminMode, lbSizeMinimizingClause, lbLbdMinimizingClause, Snap())
    {
      hide SearchInv, Extends, HeapOk, SolverInv, TrailInv, TrailValues, TrailLevels, ConflictClause, SearchRank, LearntFrom,
           Asserting, AfterLearning, Reordered;
      ghost var t := Snap();
      var c, bt := Analyze(confl);
      ghost var u, heap := Snap(), orderHeap;
      ExtendsTransitive(s, t, u);
      HeapExtends(t, u, heap);
      SolverInvFacts(u, |trailLim|);
      Backjumped(s, u, formula, assumptions, c, bt);
      ExtendsReordered(t, u);
      AssertingSize(u, c, bt);
      LearnDone(c, bt, s, u);
    }

    /** Backjump and assertion, once the clause is known. */
    method LearnDone(c: Clause, bt: nat, ghost s: State, ghost u: State)
      requires Analysed(s, u, formula, assumptions, c, bt) && u == Snap() && HeapOk(u, orderHeap) && TrailInv(u)
      requires bt < |trailLim| && trailLim[bt] <= |trail| && |c| >= 1
      requires |seen| == |vardata| && NoMarks(seen)
      modifies this`ca, this`assigns, this`vardata, this`trail, this`trailLim, this`qhead, this`watches, this`watchesBin,
               this`orderHeap
      ensures Searching() && SearchRank(Snap(), assumptions) < SearchRank(s, assumptions)
      ensures |vardata| == |old(vardata)|
      ensures AfterLearning(u, c, bt, Snap())
    {
      hide SearchInv, Analysed, HeapOk, TrailInv, Learnable, SearchRank;
      ghost var heap := orderHeap;
      CancelUntil(bt);
      HeapCancel(u, bt, heap, orderHeap);
      if |c| == 1 {
        LearnUnit(s, u, formula, assumptions, c, bt);
        HeapEnqueue(Snap(), c[0], NO_REASON, orderHeap);
        UncheckedEnqueue(c[0], NO_REASON);
      } else {
        LearnClause(s, u, formula, assumptions, c, bt);
        LearnableFacts(Snap(), c, orderHeap);
        var cr := |ca|;
        AttachClause(c);
        HeapEnqueue(Snap(), c[0], cr, orderHeap);
        UncheckedEnqueue(c[0], cr);
      }
    }

    // ----------------------------------------------------- the final conflict

    /** Marks the literals of a reason clause from position j0 on that are not fixed at level 0. */
    method MarkReason(cr: nat, j0: nat)
      requires cr < |ca| && j0 <= |ca[cr]| && forall k :: 0 <= k < |ca[cr]| ==> ca[cr][k].v < |seen|
      modifies this`seen
      ensures Grows(old(seen), seen)
      ensures forall k :: j0 <= k < |ca[cr]| ==> Covered(Snap(), seen, ca[cr][k])
      ensures forall v :: Seen(seen, v) && !Seen(old(seen), v) ==>
                exists l :: l in ca[cr] && l.v == v && Level(vardata, v) > 0
      ensures AddedUpTo(Snap(), old(seen), seen, ca[cr], j0, |ca[cr]|)
    {
      hide AddedUpTo;
      var j := j0;
      AddedNone(Snap(), seen, ca[cr], j0);
      while j < |ca[cr]|
        invariant j0 <= j <= |ca[cr]| && Grows(old(seen), seen)
        invariant AddedUpTo(Snap(), old(seen), seen, ca[cr], j0, j)
        invariant forall k :: j0 <= k < j ==> Covered(Snap(), seen, ca[cr][k])
        invariant forall v :: Seen(seen, v) && !Seen(old(seen), v) ==>
                    exists l :: l in ca[cr] && l.v == v && Level(vardata, v) > 0
      {
        var q := ca[cr][j];
        AddedNext(Snap(), old(seen), seen, ca[cr], j0, j);
        if Level(vardata, q.v) > 0 {
          assert q in ca[cr];
          seen := seen[q.v := true];
        }
        j := j + 1;
      }
    }

    /** Expresses the fact that literal p holds by the assumptions that led to it. */
    method AnalyzeFinal(p: Lit)
      requires TrailInv(Snap()) && AssumptionsOk(Snap(), assumptions) && |trailLim| <= |assumptions|
      requires p.v < |vardata| == |seen| && Value(assigns, p) == LTrue && p.Not() in assumptions && NoMarks(seen)
      modifies this`seen, this`conflict
      ensures Implied(Snap(), conflict) && NegatesAssumptions(conflict, assumptions) && conflict != []
      ensures |seen| == |vardata| && NoMarks(seen)
      ensures FinalClause(Snap(), p, conflict)
    {
      hide FinalClause, LedDecisions, Followed, TrailInv, AssumptionsOk, FinalMarks, FinalCut;
      conflict := [p];
      ghost var a := TruePosition(Snap(), p);
      NothingLed(Snap(), p, a);
      if DecisionLevel() == 0 {
        RootFact(Snap(), p);
        return;
      }
      FinalStart(Snap(), p, seen);
      FollowStart(Snap(), p, a, seen);
      seen := seen[p.v := true];
      assert FinalInv(Snap(), seen, p, conflict, |trail|, assumptions);
      hide FinalInv;
      LimBound(Snap());
      FinalScan(p, a);
      FinalInvParts(Snap(), seen, p, conflict, trailLim[0], assumptions);
      FinalEnd(Snap(), seen, p, conflict);
      FinalClauseMade(Snap(), p, a, conflict);
      seen := seen[p.v := false];
    }

    /** The trail from its end down to the first decision. */
    method FinalScan(p: Lit, ghost a: nat)
      requires TrailInv(Snap()) && AssumptionsOk(Snap(), assumptions) && 0 < |trailLim| <= |assumptions|
      requires trailLim[0] <= |trail| && |seen| == |vardata|
      requires FinalInv(Snap(), seen, p, conflict, |trail|, assumptions)
      requires Followed(Snap(), a, seen, |trail|) && conflict == [p] + LedDecisions(Snap(), a, |trail|)
      modifies this`seen, this`conflict
      ensures |seen| == |vardata| && |conflict| >= |old(conflict)|
      ensures FinalInv(Snap(), seen, p, conflict, trailLim[0], assumptions)
      ensures conflict == [p] + LedDecisions(Snap(), a, trailLim[0])
    {
      hide TrailInv, AssumptionsOk, FinalInv, LedDecisions, Followed;
      var hi := |trail|;
      while hi > trailLim[0]
        invariant trailLim[0] <= hi <= |trail| && |seen| == |vardata| && |conflict| >= |old(conflict)|
        invariant FinalInv(Snap(), seen, p, conflict, hi, assumptions)
        invariant Followed(Snap(), a, seen, hi) && conflict == [p] + LedDecisions(Snap(), a, hi)
        decreases hi
      {
        FinalStep(p, hi, a);
        hi := hi - 1;
      }
    }

    /** One trail position of the final analysis. */
    method FinalStep(p: Lit, hi: nat, ghost a: nat)
      requires TrailInv(Snap()) && AssumptionsOk(Snap(), assumptions) && 0 < |trailLim| <= |assumptions|
      requires trailLim[0] < hi <= |trail| && |seen| == |vardata|
      requires FinalInv(Snap(), seen, p, conflict, hi, assumptions)
      requires Followed(Snap(), a, seen, hi) && conflict == [p] + LedDecisions(Snap(), a, hi)
      modifies this`seen, this`conflict
      ensures |seen| == |vardata| && |conflict| >= |old(conflict)|
      ensures FinalInv(Snap(), seen, p, conflict, hi - 1, assumptions)
      ensures Followed(Snap(), a, seen, hi - 1) && conflict == [p] + LedDecisions(Snap(), a, hi - 1)
    {
      hide TrailInv, AssumptionsOk, FinalInv, FinalMarks, FinalCut, NegatesAssumptions, ReasonOk, Followed, LedDecisions,
           AddedUpTo;
      ghost var s, before := Snap(), seen;
      TrailVar(s, hi - 1);
      FinalInvParts(s, seen, p, conflict, hi, assumptions);
      var x := trail[hi - 1];
      if !seen[x.v] {
        FollowSkip(s, a, seen, hi);
        FinalSkip(s, seen, p, conflict, hi);
        FinalInvJoin(s, seen, p, conflict, hi - 1, assumptions);
      } else if Reason(vardata, x.v) == NO_REASON {
        FollowDecision(s, a, seen, hi);
        FinalLit(s, seen, p, conflict, hi, assumptions);
        conflict := conflict + [x.Not()];
        seen := seen[x.v := false];
      } else {
        var cr := Reason(vardata, x.v);
        FinalReasonFacts(s, hi - 1);
        MarkReason(cr, if |ca[cr]| == 2 then 0 else 1);
        assert forall l :: l in ca[cr] && l != x ==> Covered(s, seen, l);
        FollowReason(s, a, before, seen, hi, cr, if |ca[cr]| == 2 then 0 else 1);
        FinalReason(s, before, seen, p, conflict, hi, cr);
        seen := seen[x.v := false];
        FinalInvJoin(s, seen, p, conflict, hi - 1, assumptions);
      }
    }

    // ----------------------------------------------------- search

    method NewDecisionLevel()
      modifies this`trailLim
      ensures Snap() == NewLevel(old(Snap()))
    {
      trailLim := trailLim + [|trail|];
    }

    /** Opens a level for each assumption that holds, up to the first that does not. */
    method PlaceAssumptions() returns (failed: bool, open: bool, next: Lit)
      requires Searching() && qhead == |trail|
      modifies this`trailLim, this`seen, this`conflict
      ensures Searching() && qhead == |trail| && SearchRank(Snap(), assumptions) <= SearchRank(old(Snap()), assumptions)
      ensures failed ==> Correct(Unsatisfiable, assigns, conflict, formula, assumptions) && conflict != []
      ensures failed ==> Blames(Snap(), assumptions, conflict)
      ensures |trailLim| >= |old(trailLim)|
      ensures !failed ==> conflict == old(conflict)
      ensures !failed && open ==> |trailLim| < |assumptions| && next == assumptions[|trailLim|]
                                  && next.v < |vardata| && Value(assigns, next) == LUndef
      ensures !failed && !open ==> |trailLim| >= |assumptions|
    {
      hide SearchInv, HeapOk, NoMarks, SearchRank, AssumptionsOk, SolverInv, TrailInv, Represents, FinalClause;
      next := Lit(0, false);
      while DecisionLevel() < |assumptions|
        invariant Searching() && qhead == |trail| && SearchRank(Snap(), assumptions) <= SearchRank(old(Snap()), assumptions)
        invariant conflict == old(conflict) && |trailLim| >= |old(trailLim)|
        decreases |assumptions| - |trailLim|
      {
        ghost var s := Snap();
        SearchFacts(s, formula, assumptions);
        var p := assumptions[DecisionLevel()];
        if Value(assigns, p) == LTrue {
          DummyStep(s, formula, assumptions, orderHeap);
          NewDecisionLevel();
        } else if Value(assigns, p) == LFalse {
          ValueNot(assigns, p);
          AnalyzeFinal(p.Not());
          ImpliedIsEntailed(s, formula, assumptions, conflict);
          assert p.Not().Not() == p;
          return true, false, next;
        } else {
          return false, true, p;
        }
      }
      return false, false, next;
    }

    /** Picks an unassigned variable with some polarity, or finds that there is none. Which one is
        left to the heuristics. */
    method PickBranchLit() returns (found: bool, next: Lit)
      requires HeapOk(Snap(), orderHeap) && |assigns| == |vardata|
      modifies this`orderHeap
      ensures found ==> next.v < |vardata| && Value(assigns, next) == LUndef
      ensures found ==> forall v: nat :: v < |vardata| && v != next.v && Value(assigns, Lit(v, false)) == LUndef ==> v in orderHeap
      ensures !found ==> forall v: nat :: v < |vardata| ==> Value(assigns, Lit(v, false)) != LUndef
      ensures !found ==> HeapOk(Snap(), orderHeap)
    {
      var v: nat := |vardata|;
      var random: bool := *;
      if random && orderHeap != {} {
        v :| v in orderHeap;
      }
      while v >= |vardata| || assigns[v] != LUndef
        invariant v < |vardata| && assigns[v] == LUndef ==>
                    forall u: nat :: u < |vardata| && u != v && Value(assigns, Lit(u, false)) == LUndef ==> u in orderHeap
        invariant v >= |vardata| || assigns[v] != LUndef ==> HeapOk(Snap(), orderHeap)
        decreases v >= |vardata| || assigns[v] != LUndef, |orderHeap|
      {
        if orderHeap == {} { return false, Lit(0, false); }
        v :| v in orderHeap;
        orderHeap := orderHeap - {v};
      }
      var neg: bool := *;
      return true, Lit(v, neg);
    }

    /** Propagation as the search sees it: done, or a conflict to learn from, or a refutation. */
    method PropagateOrLearn() returns (r: Status, learnt: bool)
      requires Searching() && conflict == []
      modifies this`ca, this`assigns, this`vardata, this`trail, this`trailLim, this`qhead, this`watches, this`watchesBin,
               this`seen, this`analyzeToClear, this`orderHeap, this`conflicts
      ensures r == Undecided || r == Unsatisfiable
      ensures r == Undecided ==> conflicts == old(conflicts) + if learnt then 1 else 0
      ensures TrailInv(Snap()) && |vardata| == |old(vardata)| && |seen| == |vardata| && NoMarks(seen)
      ensures r == Unsatisfiable ==> Correct(r, assigns, conflict, formula, assumptions) && |trailLim| == 0
      ensures r == Undecided ==> Searching()
      ensures r == Undecided && learnt ==> SearchRank(Snap(), assumptions) < SearchRank(old(Snap()), assumptions)
      ensures learnt ==> LearnsFromConflict(old(Snap()), ccminMode, lbSizeMinimizingClause, lbLbdMinimizingClause, Snap())
      ensures r == Undecided && !learnt ==> trailLim == old(trailLim) && |ca| == |old(ca)|
      ensures r == Undecided && !learnt ==>
                qhead == |trail| && SearchRank(Snap(), assumptions) <= SearchRank(old(Snap()), assumptions)
    {
      hide SearchInv, HeapOk, SearchRank, AssumptionsOk, SolverInv, TrailInv, Represents, Extends, ConflictClause, Entails, Learns;
      ghost var s, heap := Snap(), orderHeap;
      SearchFacts(s, formula, assumptions);
      var confl := Propagate();
      ghost var t := Snap();
      HeapExtends(s, t, heap);
      ExtendsSizes(s, t);
      if confl == NO_REASON {
        PropagationKeepsSearch(s, t, formula, assumptions);
        SearchFacts(t, formula, assumptions);
        return Undecided, false;
      }
      ConflictIndex(t, confl);
      conflicts := conflicts + 1;
      if DecisionLevel() == 0 {
        RootConflict(s, t, formula, assumptions, confl);
        return Unsatisfiable, false;
      }
      LearnFrom(confl, s);
      SearchFacts(Snap(), formula, assumptions);
      return Undecided, true;
    }

    /** Top-level simplification; removing satisfied clauses is left to the clause-database heuristics. */
    method Simplify() returns (consistent: bool)
      requires Searching() && conflict == [] && |trailLim| == 0
      modifies this`ca, this`assigns, this`vardata, this`trail, this`watches, this`qhead
      ensures TrailInv(Snap()) && |vardata| == |old(vardata)| && |seen| == |vardata| && NoMarks(seen)
      ensures |ca| == |old(ca)|
      ensures consistent ==>
                Searching() && qhead == |trail| && SearchRank(Snap(), assumptions) <= SearchRank(old(Snap()), assumptions)
      ensures !consistent ==> Correct(Unsatisfiable, assigns, conflict, formula, assumptions)
    {
      hide SearchInv, HeapOk, SearchRank, AssumptionsOk, SolverInv, TrailInv, Represents, Extends, ConflictClause, Entails;
      ghost var s, heap := Snap(), orderHeap;
      SearchFacts(s, formula, assumptions);
      var confl := Propagate();
      ghost var t := Snap();
      HeapExtends(s, t, heap);
      ExtendsSizes(s, t);
      if confl == NO_REASON {
        PropagationKeepsSearch(s, t, formula, assumptions);
        SearchFacts(t, formula, assumptions);
        return true;
      }
      ConflictIndex(t, confl);
      RootConflict(s, t, formula, assumptions, confl);
      return false;
    }

    /** Gives up the current assignment, to start over with the clauses learnt so far. */
    method Restart()
      requires Searching()
      modifies this`assigns, this`trail, this`trailLim, this`qhead, this`orderHeap
      ensures Searching() && |trailLim| == 0 && TrailInv(Snap())
    {
      hide SearchInv, HeapOk, TrailInv;
      ghost var s, heap := Snap(), orderHeap;
      SearchFacts(s, formula, assumptions);
      if |trailLim| > 0 { RestartStep(s, formula, assumptions); }
      CancelUntil(0);
      if |s.trailLim| > 0 { HeapCancel(s, 0, heap, orderHeap); }
      SearchFacts(Snap(), formula, assumptions);
    }

    /** The next decision: an assumption that is still open, or a literal of the heuristics' choice. */
    method Branch() returns (r: Status)
      requires Searching() && qhead == |trail| && conflict == []
      modifies this`assigns, this`vardata, this`trail, this`trailLim, this`seen, this`conflict, this`orderHeap
      ensures Searching() && TrailInv(Snap()) && |vardata| == |old(vardata)|
      ensures Correct(r, assigns, conflict, formula, assumptions) && r != Unknown
      ensures r != Unsatisfiable <==> conflict == []
      ensures r == Undecided ==> SearchRank(Snap(), assumptions) < SearchRank(old(Snap()), assumptions)
      ensures r == Undecided ==> |trailLim| > |old(trailLim)|
      ensures r == Unsatisfiable ==> Blames(Snap(), assumptions, conflict)
    {
      hide SearchInv, HeapOk, SearchRank, AssumptionsOk, SolverInv, TrailInv, Represents, Entails, Blames;
      var failed, open, next := PlaceAssumptions();
      ghost var s := Snap();
      SearchFacts(s, formula, assumptions);
      if failed { return Unsatisfiable; }
      if !open {
        var found;
        found, next := PickBranchLit();
        if !found {
          CompleteTrailIsModel(s, formula, assumptions);
          return Satisfiable;
        }
      } else {
        HeapForAny(s, orderHeap, next);
      }
      DecideStep(s, formula, assumptions, next, orderHeap);
      NewDecisionLevel();
      UncheckedEnqueue(next, NO_REASON);
      SearchFacts(Snap(), formula, assumptions);
      return Undecided;
    }

    /** One turn of the search loop; a restart needs `budget` conflicts in this search. */
    method SearchStep(conflictC: nat, budget: nat) returns (r: Status, learnt: bool)
      requires Searching() && conflict == []
      modifies this
      ensures ok == old(ok) && |seen| == |vardata| && NoMarks(seen)
      ensures formula == old(formula) && assumptions == old(assumptions) && |vardata| == |old(vardata)|
      ensures TrailInv(Snap())
      ensures Correct(r, assigns, conflict, formula, assumptions)
      ensures r != Unsatisfiable || conflict != [] ==> Searching()
      ensures r == Unsatisfiable && conflict == [] ==> |trailLim| == 0
      ensures r != Unsatisfiable ==> conflict == []
      ensures r == Undecided ==> SearchRank(Snap(), assumptions) < SearchRank(old(Snap()), assumptions)
      ensures r == Unknown ==> budget <= conflictC && !learnt
      ensures r == Unsatisfiable && conflict != [] ==> Blames(Snap(), assumptions, conflict)
      ensures learnt ==> LearnsFromConflict(old(Snap()), ccminMode, lbSizeMinimizingClause, lbLbdMinimizingClause, Snap())
      ensures r == Undecided && !learnt ==> |trailLim| > |old(trailLim)| && |ca| == |old(ca)|
      ensures r == Undecided || r == Unknown ==> conflicts == old(conflicts) + if learnt then 1 else 0
    {
      hide SearchInv, HeapOk, SearchRank, AssumptionsOk, SolverInv, TrailInv, Represents, Extends, Entails, Blames,
           LearnsFromConflict;
      r, learnt := PropagateOrLearn();
      if r == Unsatisfiable || learnt { return; }
      var restart: bool := *;
      if restart && budget <= conflictC {
        Restart();
        return Unknown, false;
      }
      if DecisionLevel() == 0 {
        var consistent := Simplify();
        if !consistent { return Unsatisfiable, false; }
      }
      r := Branch();
    }

    /** Searches for a model of the formula under the assumptions, until one is found, there is none,
        or the restart policy stops after at least `budget` conflicts. */
    method Search(budget: nat) returns (r: Status)
      requires Searching() && conflict == []
      modifies this
      ensures ok == old(ok) && |seen| == |vardata| && NoMarks(seen)
      ensures formula == old(formula) && assumptions == old(assumptions) && |vardata| == |old(vardata)|
      ensures r != Undecided && Correct(r, assigns, conflict, formula, assumptions)
      ensures TrailInv(Snap())
      ensures r != Unsatisfiable || conflict != [] ==> Searching()
      ensures r == Unsatisfiable && conflict == [] ==> |trailLim| == 0
      ensures r != Unsatisfiable ==> conflict == []
      ensures r == Unsatisfiable && conflict != [] ==> Blames(Snap(), assumptions, conflict)
      ensures r == Unknown ==> conflicts >= old(conflicts) + budget && budget < MaxConflicts(|vardata|, |assumptions|)
    {
      hide SearchInv, HeapOk, SearchRank, TrailInv, Correct, NoMarks, Blames, LearnsFromConflict;
      var conflictC := 0;
      RankBelow(Snap(), assumptions);
      var learnt;
      r, learnt := SearchStep(conflictC, budget);
      if learnt { conflictC := 1; }
      while r == Undecided
        invariant r == Undecided || r == Unknown ==> conflicts == old(conflicts) + conflictC
        invariant r == Undecided ==> SearchRank(Snap(), assumptions) + conflictC <= SearchRank(old(Snap()), assumptions)
        invariant r == Unknown ==> budget <= conflictC <= SearchRank(old(Snap()), assumptions)
        invariant ok == old(ok) && |seen| == |vardata| && NoMarks(seen)
        invariant formula == old(formula) && assumptions == old(assumptions) && |vardata| == |old(vardata)|
        invariant r == Undecided ==> Searching()
        invariant Correct(r, assigns, conflict, formula, assumptions) && TrailInv(Snap())
        invariant r != Unsatisfiable || conflict != [] ==> Searching()
        invariant r == Unsatisfiable && conflict == [] ==> |trailLim| == 0
        invariant r != Unsatisfiable ==> conflict == []
        invariant r == Unsatisfiable && conflict != [] ==> Blames(Snap(), assumptions, conflict)
        decreases r == Undecided, SearchRank(Snap(), assumptions)
      {
        r, learnt := SearchStep(conflictC, budget);
        if learnt { conflictC := conflictC + 1; }
      }
    }

    // ----------------------------------------------------- the public interface

    /** The solver between calls: at level 0 with the models of its formula, or known to be refuted. */
    ghost predicate Ready()
      reads this
    {
      && (ok ==> AtRoot(Snap(), formula) && HeapOk(Snap(), orderHeap))
      && (!ok ==> Entails(formula, []))
      && |seen| == |vardata| && NoMarks(seen)
    }

    constructor (ccminMode: int, lbLbdMinimizingClause: nat, lbSizeMinimizingClause: nat)
      ensures Ready() && ok && formula == [] && |vardata| == 0
    {
      ca, assigns, vardata, trail, trailLim, qhead := [], [], [], [], [], 0;
      watches, watchesBin := map[], map[];
      seen, analyzeToClear, orderHeap, assumptions, conflict, ok := [], [], {}, [], [], true;
      this.ccminMode := ccminMode;
      this.lbLbdMinimizingClause := lbLbdMinimizingClause;
      this.lbSizeMinimizingClause := lbSizeMinimizingClause;
      conflicts := 0;
      formula := [];
    }

    method NewVar() returns (v: nat)
      requires Ready()
      modifies this`assigns, this`vardata, this`watches, this`watchesBin, this`seen, this`orderHeap
      ensures Ready() && v == |old(vardata)| && |vardata| == v + 1
    {
      hide AtRoot, HeapOk, NoMarks, Entails;
      v := |vardata|;
      if ok {
        AddVarRoot(Snap(), formula);
        AddVarHeap(Snap(), orderHeap);
      }
      watches := watches[Lit(v, false) := []][Lit(v, true) := []];
      watchesBin := watchesBin[Lit(v, false) := []][Lit(v, true) := []];
      assigns := assigns + [LUndef];
      vardata := vardata + [VarData(NO_REASON, 0)];
      NoMarksMore(seen);
      seen := seen + [false];
      orderHeap := orderHeap + {v};
    }

    /** Adds a clause at level 0; false means that the formula has become unsatisfiable. */
    method AddClause(ps0: Clause) returns (r: bool)
      requires Ready() && forall l :: l in ps0 ==> l.v < |vardata|
      modifies this
      ensures Ready() && formula == old(formula) + [ps0] && r == ok && |vardata| == |old(vardata)|
    {
      hide AtRoot, HeapOk, NoMarks, Cleaning, Entails;
      ghost var f := formula;
      formula := formula + [ps0];
      if !ok {
        EntailsMore(f, ps0);
        return false;
      }
      var ps := Sort(ps0);
      var cleaned := Clean(assigns, ps);
      SameClause(f, ps, ps0);
      match cleaned
      case Satisfied =>
        StoreNothing(Snap(), f, ps);
        RepresentsSame(Snap(), f, ps, ps0);
        return true;
      case Open(c) =>
        r := StoreClause(c, f, ps, ps0);
    }

    /** Stores the open literals of a clause: as a refutation, a fact, or a watched clause. */
    method StoreClause(c: Clause, ghost f: seq<Clause>, ghost ps: Clause, ghost ps0: Clause) returns (r: bool)
      requires AtRoot(Snap(), f) && HeapOk(Snap(), orderHeap) && ok && formula == f + [ps0]
      requires Cleaning(assigns, ps, c, |ps|) && forall l :: l in ps ==> l.v < |vardata|
      requires forall m :: FormulaTrue(m, f + [ps]) <==> FormulaTrue(m, f + [ps0])
      requires |seen| == |vardata| && NoMarks(seen)
      modifies this`ca, this`assigns, this`vardata, this`trail, this`watches, this`watchesBin, this`qhead, this`ok
      ensures Ready() && r == ok && |vardata| == |old(vardata)|
    {
      hide AtRoot, HeapOk, NoMarks, Cleaning, Entails;
      ghost var s := Snap();
      if |c| == 0 {
        StoreEmpty(s, f, ps);
        EntailsSame(f, ps, ps0);
        ok := false;
        return false;
      } else if |c| == 1 {
        StoreUnit(s, f, ps, c);
        HeapEnqueue(s, c[0], NO_REASON, orderHeap);
        RepresentsSame(Enqueue(s, c[0], NO_REASON), f, ps, ps0);
        UncheckedEnqueue(c[0], NO_REASON);
        r := PropagateAtRoot();
        ok := r;
      } else {
        StoreLong(s, f, ps, c);
        RepresentsSame(AttachNew(s, c), f, ps, ps0);
        HeapAttach(s, c, orderHeap);
        AttachClause(c);
        return true;
      }
    }

    /** Propagation at level 0: false means a refutation. */
    method PropagateAtRoot() returns (r: bool)
      requires AtRoot(Snap(), formula) && HeapOk(Snap(), orderHeap)
      modifies this`ca, this`assigns, this`vardata, this`trail, this`watches, this`qhead
      ensures |vardata| == |old(vardata)|
      ensures r ==> AtRoot(Snap(), formula) && HeapOk(Snap(), orderHeap)
      ensures !r ==> Entails(formula, [])
    {
      ghost var s := Snap();
      hide HeapOk, SolverInv, Extends, ConflictClause, Entails, Represents;
      var confl := Propagate();
      ghost var t := Snap();
      ExtendsSizes(s, t);
      HeapExtends(s, t, orderHeap);
      if confl == NO_REASON {
        RootExtends(s, t, formula);
        return true;
      }
      ConflictIndex(t, confl);
      RootRefuted(s, t, formula, confl);
      return false;
    }

    /** Search after search, until there is an answer or there have been enough restarts. */
    method SearchAgain(restarts: nat, budget: nat -> nat) returns (r: Status)
      requires Searching() && conflict == []
      modifies this
      ensures ok == old(ok) && |seen| == |vardata| && NoMarks(seen)
      ensures formula == old(formula) && assumptions == old(assumptions) && |vardata| == |old(vardata)|
      ensures r != Undecided && Correct(r, assigns, conflict, formula, assumptions)
      ensures TrailInv(Snap())
      ensures r != Unsatisfiable || conflict != [] ==> Searching()
      ensures r == Unsatisfiable && conflict == [] ==> |trailLim| == 0
      ensures r == Unsatisfiable && conflict != [] ==> Blames(Snap(), assumptions, conflict)
      ensures r == Unknown ==> conflicts >= old(conflicts) + Total(budget, restarts + 1)
      ensures r == Unknown ==> forall n :: 0 <= n <= restarts ==> budget(n) < MaxConflicts(|vardata|, |assumptions|)
    {
      hide SearchInv, HeapOk, Correct, NoMarks, TrailInv, MaxConflicts, Total, Blames;
      TotalNone(budget);
      TotalNext(budget, 0);
      r := Search(budget(0));
      var n := 0;
      while r == Unknown && n < restarts
        invariant formula == old(formula) && assumptions == old(assumptions) && |vardata| == |old(vardata)|
        invariant r != Undecided && Correct(r, assigns, conflict, formula, assumptions) && TrailInv(Snap())
        invariant r != Unsatisfiable || conflict != [] ==> Searching()
        invariant r == Unsatisfiable && conflict == [] ==> |trailLim| == 0
        invariant r != Unsatisfiable ==> conflict == []
        invariant r == Unsatisfiable && conflict != [] ==> Blames(Snap(), assumptions, conflict)
        invariant n <= restarts && ok == old(ok) && |seen| == |vardata| && NoMarks(seen)
        invariant r == Unknown ==> conflicts >= old(conflicts) + Total(budget, n + 1)
        invariant r == Unknown ==> forall i :: 0 <= i <= n ==> budget(i) < MaxConflicts(|vardata|, |assumptions|)
        decreases restarts - n
      {
        n := n + 1;
        TotalNext(budget, n);
        r := Search(budget(n));
      }
    }

    /** Decides the formula under the given assumptions. `restarts` bounds the number of restarts; search n restarts
        after at least budget(n) conflicts, so that one search with a large budget is enough. */
    method Solve(assumps: seq<Lit>, restarts: nat, budget: nat -> nat) returns (r: Status, model: seq<LBool>)
      requires Ready() && forall l :: l in assumps ==> l.v < |vardata|
      modifies this
      ensures Ready() && formula == old(formula) && |vardata| == |old(vardata)|
      ensures r != Undecided && Correct(r, model, conflict, formula, assumps)
      ensures r == Unsatisfiable ==> Refuted(formula, assumps)
      ensures r == Unsatisfiable && conflict != [] ==> exists s :: SearchInv(s, formula, assumps) && Blames(s, assumps, conflict)
      ensures r == Unknown ==> conflicts >= old(conflicts) + Total(budget, restarts + 1)
      ensures (exists n :: 0 <= n <= restarts && budget(n) >= MaxConflicts(|vardata|, |assumps|)) ==> r != Unknown
    {
      hide SearchInv, HeapOk, AtRoot, Correct, NoMarks, TrailInv, Entails, Refuted, Blames;
      assumptions := assumps;
      conflict, model := [], [];
      if !ok {
        RefutedAlready(model, formula, assumps);
        return Unsatisfiable, model;
      }
      StartSearch(Snap(), formula, assumps);
      r := SearchAgain(restarts, budget);
      model := assigns;
      ghost var s := Snap();
      if r == Unsatisfiable { RefutedBy(assigns, conflict, formula, assumps); }
      if r == Unsatisfiable && conflict == [] {
        ok := false;
        CancelUntil(0);
      } else {
        Restart();
        EndSearch(Snap(), formula, assumps);
      }
    }
  }
}
