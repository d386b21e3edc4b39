/** Recursive clause minimisation: the work list of litRedundant and what its marks stand for. */
module CdclMinimize {
  import opened Basics
  import opened Sat
  import opened CdclState
  import opened CdclWatches
  import opened CdclPropagate
  import opened CdclAnalyze

  /** Every mark sits on a variable assigned above level 0 and is on the list of marks to clear. */
  ghost predicate MarksKnown(s: State, seen: seq<bool>, toClear: seq<Lit>) {
    && |seen| == |s.vardata|
    && (forall k :: 0 <= k < |toClear| ==> toClear[k].v < |seen|)
    && forall v :: Seen(seen, v) ==> Value(s.assigns, Lit(v, false)) != LUndef && VarIn(toClear, v)
  }

  /** The marks made since `top`: exactly the variables listed from there on. */
  ghost predicate MarksSince(before: seq<bool>, seen: seq<bool>, toClear: seq<Lit>, top: nat) {
    && |before| == |seen| && top <= |toClear|
    && (forall v :: Seen(seen, v) <==> Seen(before, v) || VarIn(toClear[top..], v))
    && (forall k :: top <= k < |toClear| ==> toClear[k].v < |seen| && !Seen(before, toClear[k].v))
  }

  /** Literals waiting to be expanded: propagated ones. */
  ghost predicate WorkOk(s: State, work: seq<Lit>) {
    forall k :: 0 <= k < |work| ==> work[k].v < |s.vardata| && Value(s.assigns, work[k]) == LFalse
                                    && Reason(s.vardata, work[k].v) != NO_REASON
  }

  /** The state of litRedundant: the variable x is being expanded (or already on the work list). */
  ghost predicate Expanding(s: State, before: seq<bool>, seen: seq<bool>, kept: set<nat>, work: seq<Lit>,
                            x: seq<Lit>, toClear: seq<Lit>, top: nat) {
    && MarksKnown(s, seen, toClear)
    && MarksSince(before, seen, toClear, top)
    && WorkOk(s, work)
    && MarksJustified(s, seen, kept, work + x)
  }

  function Unmarked(seen: seq<bool>): nat {
    if seen == [] then 0 else Unmarked(seen[..|seen| - 1]) + (if seen[|seen| - 1] then 0 else 1)
  }

  lemma {:induction false} UnmarkedDrops(seen: seq<bool>, v: nat)
    requires v < |seen| && !seen[v]
    ensures Unmarked(seen[v := true]) < Unmarked(seen)
  {
    var n := |seen| - 1;
    if v == n {
      assert seen[v := true][..n] == seen[..n];
    } else {
      assert seen[v := true][..n] == seen[..n][v := true];
      UnmarkedDrops(seen[..n], v);
    }
  }

  lemma JustifiedGrows(s: State, a: seq<bool>, b: seq<bool>, v: nat)
    requires Grows(a, b) && Justified(s, a, v)
    ensures Justified(s, b, v)
  {}

  /** Marking q and putting it on the work list. */
  lemma PushWork(s: State, before: seq<bool>, seen: seq<bool>, kept: set<nat>, work: seq<Lit>, x: seq<Lit>,
                 toClear: seq<Lit>, top: nat, q: Lit)
    requires Expanding(s, before, seen, kept, work, x, toClear, top)
    requires q.v < |seen| && !seen[q.v] && Value(s.assigns, q) == LFalse && Reason(s.vardata, q.v) != NO_REASON
    ensures Expanding(s, before, seen[q.v := true], kept, work + [q], x, toClear + [q], top)
  {
    var after, w2, c2 := seen[q.v := true], work + [q], toClear + [q];
    AppendLit(toClear, q);
    assert c2[top..] == toClear[top..] + [q];
    AppendLit(toClear[top..], q);
    assert !Seen(before, q.v);
    forall k | top <= k < |c2| ensures c2[k].v < |after| && !Seen(before, c2[k].v) {
      if k < |toClear| { assert c2[k] == toClear[k]; }
    }
    VarIn2(work, x, q);
    forall v | Seen(after, v) ensures v in kept || VarIn(w2 + x, v) || Justified(s, after, v) {
      if v != q.v {
        assert Seen(seen, v);
        if Justified(s, seen, v) { JustifiedGrows(s, seen, after, v); }
      }
    }
    forall v ensures Seen(after, v) <==> Seen(before, v) || VarIn(c2[top..], v) {
      assert Seen(seen, v) <==> Seen(before, v) || VarIn(toClear[top..], v);
      VarInAppend(toClear[top..], q, v);
    }
  }

  lemma VarInAppend(c: seq<Lit>, q: Lit, v: nat)
    ensures VarIn(c + [q], v) <==> VarIn(c, v) || v == q.v
  {
    AppendLit(c, q);
  }

  lemma VarIn2(work: seq<Lit>, x: seq<Lit>, q: Lit)
    ensures forall v :: VarIn(work + x, v) || v == q.v ==> VarIn(work + [q] + x, v)
  {
    var a, b := work + x, work + [q] + x;
    assert b[|work|] == q;
    forall v | VarIn(a, v) ensures VarIn(b, v) {
      var i :| 0 <= i < |a| && a[i].v == v;
      assert b[if i < |work| then i else i + 1].v == v;
    }
  }

  /** x has been expanded: all other literals of its reason are covered. */
  lemma Expanded(s: State, before: seq<bool>, seen: seq<bool>, kept: set<nat>, work: seq<Lit>, x: Lit,
                 toClear: seq<Lit>, top: nat)
    requires Expanding(s, before, seen, kept, work, [x], toClear, top) && Justified(s, seen, x.v)
    ensures Expanding(s, before, seen, kept, work, [], toClear, top)
  {
    assert work + [] == work;
    forall v | VarIn(work + [x], v) ensures VarIn(work, v) || v == x.v {
      VarInAppend(work, x, v);
    }
  }

  lemma PopWork(s: State, before: seq<bool>, seen: seq<bool>, kept: set<nat>, work: seq<Lit>,
                toClear: seq<Lit>, top: nat)
    requires Expanding(s, before, seen, kept, work, [], toClear, top) && |work| > 0
    ensures Expanding(s, before, seen, kept, work[..|work| - 1], [work[|work| - 1]], toClear, top)
  {
    assert work[..|work| - 1] + [work[|work| - 1]] == work + [];
  }

  lemma StartWork(s: State, seen: seq<bool>, kept: set<nat>, p: Lit, toClear: seq<Lit>)
    requires MarksKnown(s, seen, toClear) && MarksJustified(s, seen, kept, [])
    requires p.v < |seen| && Value(s.assigns, p) == LFalse && Reason(s.vardata, p.v) != NO_REASON
    ensures Expanding(s, seen, seen, kept - {p.v}, [p], [], toClear, |toClear|)
  {
    assert [p] + [] == [p] && [p][0].v == p.v;
    assert VarIn([p], p.v);
    assert toClear[|toClear|..] == [];
  }

  /** The reason of a false literal x, brought to the front if binary. */
  lemma WorkReason(s: State, x: Lit)
    requires TrailInv(s) && Value(s.assigns, x) == LFalse && Reason(s.vardata, x.v) != NO_REASON
    ensures 0 <= Reason(s.vardata, x.v) < |s.ca| && |s.ca[Reason(s.vardata, x.v)]| >= 2
    ensures exists l :: l in s.ca[Reason(s.vardata, x.v)] && Value(s.assigns, l) != LFalse
    ensures |s.ca[Reason(s.vardata, x.v)]| == 2 ==> Value(s.assigns, s.ca[Reason(s.vardata, x.v)][0]) != LFalse ==>
              ReasonReady(s, x.v)
    ensures |s.ca[Reason(s.vardata, x.v)]| > 2 ==> ReasonReady(s, x.v)
  {
    var i := FalseOnTrail(s, x);
    assert ReasonAt(s, i);
    var c := s.ca[Reason(s.vardata, x.v)];
    assert ClauseShape(c, |s.vardata|);
    assert s.trail[i] in c;
    if |c| > 2 || Value(s.assigns, c[0]) != LFalse { ReasonFront(s, i, Reason(s.vardata, x.v)); }
  }

  /** The reason clause of v starts with the literal of v, and its other literals are false. */
  ghost predicate ReasonReady(s: State, v: nat) {
    var r := Reason(s.vardata, v);
    && 0 <= r < |s.ca| && |s.ca[r]| >= 2 && s.ca[r][0].v == v
    && forall j :: 1 <= j < |s.ca[r]| ==> s.ca[r][j].v < |s.vardata| && Value(s.assigns, s.ca[r][j]) == LFalse
  }

  /** Permuting clauses keeps all marks justified. */
  lemma ExpandingPermuted(s: State, t: State, before: seq<bool>, seen: seq<bool>, kept: set<nat>, work: seq<Lit>,
                          x: seq<Lit>, toClear: seq<Lit>, top: nat)
    requires Expanding(s, before, seen, kept, work, x, toClear, top)
    requires Extends(s, t) && t == s.(ca := t.ca)
    ensures Expanding(t, before, seen, kept, work, x, toClear, top)
  {
    forall v | Justified(s, seen, v) ensures Justified(t, seen, v) {
      assert SameLits(s.ca[Reason(s.vardata, v)], t.ca[Reason(s.vardata, v)]);
    }
  }

  lemma MarksJustifiedPermuted(s: State, t: State, seen: seq<bool>, kept: set<nat>)
    requires MarksJustified(s, seen, kept, []) && Extends(s, t) && t == s.(ca := t.ca)
    ensures MarksJustified(t, seen, kept, [])
  {
    forall v | Justified(s, seen, v) ensures Justified(t, seen, v) {
      assert SameLits(s.ca[Reason(s.vardata, v)], t.ca[Reason(s.vardata, v)]);
    }
  }

  /** Taking back the marks made since `top`. */
  lemma Restored(before: seq<bool>, seen: seq<bool>, toClear: seq<Lit>, top: nat, after: seq<bool>)
    requires MarksSince(before, seen, toClear, top) && |after| == |seen|
    requires forall v :: Seen(after, v) <==> Seen(seen, v) && !VarIn(toClear[top..], v)
    ensures after == before
  {
    forall v: nat | v < |before| ensures after[v] == before[v] {
      assert Seen(after, v) <==> Seen(seen, v) && !VarIn(toClear[top..], v);
      if VarIn(toClear[top..], v) {
        var k :| 0 <= k < |toClear[top..]| && toClear[top..][k].v == v;
        assert toClear[top + k].v == v;
      }
    }
  }

  lemma WorkTop(s: State, before: seq<bool>, seen: seq<bool>, kept: set<nat>, work: seq<Lit>,
                toClear: seq<Lit>, top: nat)
    requires TrailInv(s) && Expanding(s, before, seen, kept, work, [], toClear, top) && |work| > 0
    ensures var x := work[|work| - 1];
            && 0 <= Reason(s.vardata, x.v) < |s.ca| && |s.ca[Reason(s.vardata, x.v)]| >= 2
            && Value(s.assigns, x) == LFalse && Reason(s.vardata, x.v) != NO_REASON && x.v < |s.vardata| == |seen|
            && (exists l :: l in s.ca[Reason(s.vardata, x.v)] && Value(s.assigns, l) != LFalse)
  {
    WorkReason(s, work[|work| - 1]);
  }

  lemma WorkDone(s: State, before: seq<bool>, seen: seq<bool>, kept: set<nat>, toClear: seq<Lit>, top: nat)
    requires Expanding(s, before, seen, kept, [], [], toClear, top)
    ensures MarksKnown(s, seen, toClear) && MarksJustified(s, seen, kept, []) && Grows(before, seen)
  {
    var none: seq<Lit> := [];
    assert none + none == none;
  }

  lemma ExpandingSize(s: State, before: seq<bool>, seen: seq<bool>, kept: set<nat>, work: seq<Lit>, x: seq<Lit>,
                      toClear: seq<Lit>, top: nat)
    requires Expanding(s, before, seen, kept, work, x, toClear, top)
    ensures |seen| == |s.vardata| && top <= |toClear| && MarksSince(before, seen, toClear, top)
  {}

  lemma FrontedReason(s: State, x: Lit)
    requires SolverInv(s, |s.trailLim|) && Value(s.assigns, x) == LFalse && Reason(s.vardata, x.v) != NO_REASON
    requires 0 <= Reason(s.vardata, x.v) < |s.ca|
    requires |s.ca[Reason(s.vardata, x.v)]| == 2 ==> Value(s.assigns, s.ca[Reason(s.vardata, x.v)][0]) != LFalse
    ensures ReasonReady(s, x.v)
  {
    WorkReason(s, x);
  }

  lemma MarksRestored(s: State, t: State, seen: seq<bool>, kept: set<nat>, toClear: seq<Lit>)
    requires Extends(s, t) && t == s.(ca := t.ca)
    requires MarksKnown(s, seen, toClear) && MarksJustified(s, seen, kept, [])
    ensures MarksKnown(t, seen, toClear) && MarksJustified(t, seen, kept, []) && Grows(seen, seen)
  {
    MarksJustifiedPermuted(s, t, seen, kept);
  }

  lemma KnownSize(s: State, seen: seq<bool>, toClear: seq<Lit>)
    requires MarksKnown(s, seen, toClear)
    ensures |seen| == |s.vardata|
  {}

  // ------------------------------------------------------- from marks to the learnt clause

  /** A learnt clause: false under the trail, implied, and one literal of the current level, in front. */
  ghost predicate LearntOk(s: State, c: Clause) {
    && |c| >= 1 && DistinctVars(c)
    && (forall k :: 0 <= k < |c| ==> c[k].v < |s.vardata| && Value(s.assigns, c[k]) == LFalse)
    && Level(s.vardata, c[0].v) == |s.trailLim|
    && (forall k :: 1 <= k < |c| ==> 0 < Level(s.vardata, c[k].v) < |s.trailLim|)
    && Implied(s, c)
  }

  function Vars(c: Clause): set<nat> { set l | l in c :: l.v }

  ghost function MarksOf(n: nat, vs: set<nat>): seq<bool> {
    seq(n, v => v in vs)
  }

  lemma CutImplies(s: State, marks: seq<bool>, c: Clause)
    requires TrailValues(s) && Cut(s, marks)
    requires forall l :: l in c ==> Value(s.assigns, l) == LFalse
    requires forall v :: Seen(marks, v) ==> VarIn(c, v)
    ensures Implied(s, c)
  {
    forall m | Models(s, m) ensures ClauseTrue(m, c) {
      assert Blocked(s, marks, m);
      var i :| 0 <= i < |s.trail| && Seen(marks, s.trail[i].v) && !LitTrue(m, s.trail[i]);
      assert VarIn(c, s.trail[i].v);
      var k :| 0 <= k < |c| && c[k].v == s.trail[i].v;
      assert c[k] in c && LitTrue(m, c[k]);
    }
  }

  lemma UipLits(s: State, seen: seq<bool>, p: Lit, rest: Clause)
    requires TrailInv(s) && UipFound(s, seen, p, rest)
    ensures var c := [p.Not()] + rest;
            && DistinctVars(c) && Level(s.vardata, c[0].v) == |s.trailLim|
            && (forall k :: 0 <= k < |c| ==> c[k].v < |s.vardata| && Value(s.assigns, c[k]) == LFalse)
            && (forall k :: 1 <= k < |c| ==> 0 < Level(s.vardata, c[k].v) < |s.trailLim|)
  {
    var c := [p.Not()] + rest;
    ValueNot(s.assigns, p);
    var k :| 0 <= k < |s.trail| && s.trail[k] == p;
    assert forall i :: 1 <= i < |c| ==> c[i] == rest[i - 1] && c[i] in rest;
  }

  lemma UipMarks(s: State, seen: seq<bool>, p: Lit, rest: Clause)
    requires UipFound(s, seen, p, rest)
    requires forall q :: q in rest ==> q.v < |s.vardata|
    ensures MarksKnown(s, seen, [p.Not()] + rest) && MarksJustified(s, seen, Vars(rest), [])
    ensures forall v :: Seen(seen[p.v := true], v) ==> VarIn([p.Not()] + rest, v)
  {
    var c := [p.Not()] + rest;
    assert c[0].v == p.v;
    forall v | Seen(seen, v) ensures VarIn(c, v) && v in Vars(rest) && Value(s.assigns, Lit(v, false)) != LUndef {
      assert VarIn(rest, v);
      var i :| 0 <= i < |rest| && rest[i].v == v;
      assert c[i + 1].v == v && rest[i] in rest;
    }
  }

  lemma MoreKept(s: State, seen: seq<bool>, a: set<nat>, b: set<nat>)
    requires MarksJustified(s, seen, a, []) && a <= b
    ensures MarksJustified(s, seen, b, [])
  {}

  /** The kept literals are false literals of the clause before. */
  lemma KeptFalse(s: State, full: seq<bool>, p: Lit, rest: Clause, c: Clause)
    requires TrailInv(s) && UipFound(s, full, p, rest) && forall k :: 1 <= k < |c| ==> c[k] in rest
    ensures forall k :: 1 <= k < |c| ==> c[k].v < |s.vardata| && Value(s.assigns, c[k]) == LFalse
  {}

  /** The marks of the kept literals are the variables of the clause behind its head. */
  lemma KeptMarked(n: nat, c: Clause)
    requires |c| >= 1 && forall k :: 0 <= k < |c| ==> c[k].v < n
    ensures var small := MarksOf(n, Vars(c[1..]));
            && |small| == n && Vars(c[1..]) <= (set v | 0 <= v < n && small[v])
            && forall v :: Seen(small[c[0].v := true], v) ==> VarIn(c, v)
  {
    var small := MarksOf(n, Vars(c[1..]));
    forall v | v in Vars(c[1..]) ensures v < n && VarIn(c, v) { KeptAt(c, v); }
    assert VarIn(c, c[0].v);
    forall v | Seen(small[c[0].v := true], v) ensures VarIn(c, v) {
      if v != c[0].v { assert v in Vars(c[1..]); }
    }
  }

  lemma KeptAt(c: Clause, v: nat)
    requires |c| >= 1 && v in Vars(c[1..])
    ensures exists k :: 1 <= k < |c| && c[k].v == v
  {
    var l :| l in c[1..] && l.v == v;
    var k :| 0 <= k < |c[1..]| && c[1..][k] == l;
    assert c[k + 1].v == v;
  }

  /** The clause left by minimisation. */
  lemma MinimizedClause(s: State, full: seq<bool>, seen: seq<bool>, p: Lit, rest: Clause, c: Clause)
    requires TrailInv(s) && UipFound(s, full, p, rest) && |seen| == |full|
    requires |c| >= 1 && Grows(full, seen) && MarksJustified(s, seen, Vars(c[1..]), [])
    requires c[0] == p.Not() && DistinctVars(c) && forall k :: 1 <= k < |c| ==> c[k] in rest
    ensures LearntOk(s, c)
  {
    var kept := Vars(c[1..]);
    var small := MarksOf(|s.vardata|, kept);
    KeptFalse(s, full, p, rest, c);
    KeptMarked(|s.vardata|, c);
    hide Vars, MarksOf;
    MoreKept(s, seen, kept, set v | 0 <= v < |small| && small[v]);
    MinimizedCut(s, seen, full, small, p.v);
    ValueNot(s.assigns, p);
    CutImplies(s, small[p.v := true], c);
  }

  // ------------------------------------------------------- the compaction of the learnt clause

  /** out[..j] is what has been kept of c[..i], and out[i..] is still to be looked at. */
  ghost predicate Filtered(c: Clause, out: Clause, j: nat, i: nat) {
    && |out| == |c| && 1 <= j <= i <= |out|
    && out[0] == c[0] && out[i..] == c[i..]
    && DistinctVars(out[..j])
    && forall k :: 1 <= k < j ==> out[k] in c[1..i]
  }

  /** The literals of out stand in c at the positions `at`, before i, in order. */
  ghost predicate Picked(c: Clause, out: Clause, at: seq<nat>, i: nat) {
    && 1 <= |at| <= |out| && i <= |c| && at[0] == 0
    && (forall a, b :: 0 <= a < b < |at| ==> at[a] < at[b])
    && forall a :: 0 <= a < |at| ==> at[a] < i && out[a] == c[at[a]]
  }

  ghost predicate Subsequence(c: Clause, out: Clause) {
    exists at: seq<nat> :: |at| == |out| && Picked(c, out, at, |c|)
  }

  lemma FirstPicked(c: Clause)
    requires |c| >= 1
    ensures Picked(c, c, [0], 1)
  {}

  lemma PickedAll(c: Clause, out: Clause, at: seq<nat>, j: nat)
    requires Picked(c, out, at, |c|) && |at| == j
    ensures Subsequence(c, out[..j])
  {
    assert Picked(c, out[..j], at, |c|);
  }

  lemma PickedNext(c: Clause, out: Clause, at: seq<nat>, i: nat)
    requires Picked(c, out, at, i) && i < |c| && |at| <= i < |out| && out[i] == c[i]
    ensures Picked(c, out, at, i + 1) && Picked(c, out[|at| := out[i]], at + [i], i + 1)
  {}

  function Remaining(out: Clause, j: nat, i: nat): set<nat>
    requires 1 <= j <= i <= |out|
  {
    Vars(out[1..j] + out[i..])
  }

  lemma FilterKeep(c: Clause, out: Clause, j: nat, i: nat)
    requires DistinctVars(c) && Filtered(c, out, j, i) && i < |out|
    ensures Filtered(c, out[j := out[i]], j + 1, i + 1)
    ensures Remaining(out[j := out[i]], j + 1, i + 1) >= Remaining(out, j, i)
  {
    var o2, x := out[j := out[i]], out[i];
    assert x == c[i] by { assert out[i..][0] == c[i..][0]; }
    assert o2[i + 1..] == c[i + 1..] by { assert out[i..][1..] == c[i..][1..]; }
    assert o2[..j + 1] == out[..j] + [x];
    forall k | 0 <= k < j ensures out[k].v != x.v {
      if k >= 1 {
        var h :| 0 <= h < |c[1..i]| && c[1..i][h] == out[k];
        assert c[h + 1] == out[k];
      }
    }
    forall k | 1 <= k < j + 1 ensures o2[k] in c[1..i + 1] {
      if k < j { var h :| 0 <= h < |c[1..i]| && c[1..i][h] == out[k]; assert c[1..i + 1][h] == o2[k]; }
      else { assert c[1..i + 1][i - 1] == x; }
    }
    var a, b := out[1..j] + out[i..], o2[1..j + 1] + o2[i + 1..];
    assert b == a by { assert o2[1..j + 1] == out[1..j] + [x]; assert out[i..] == [x] + out[i + 1..]; assert o2[i + 1..] == out[i + 1..]; }
  }

  lemma FilterDrop(c: Clause, out: Clause, j: nat, i: nat)
    requires DistinctVars(c) && Filtered(c, out, j, i) && i < |out|
    ensures Filtered(c, out, j, i + 1)
    ensures Remaining(out, j, i + 1) >= Remaining(out, j, i) - {out[i].v}
  {
    assert out[i + 1..] == c[i + 1..] by { assert out[i..][1..] == c[i..][1..]; }
    forall k | 1 <= k < j ensures out[k] in c[1..i + 1] {
      var h :| 0 <= h < |c[1..i]| && c[1..i][h] == out[k];
      assert c[1..i + 1][h] == out[k];
    }
    forall v | v in Remaining(out, j, i) - {out[i].v} ensures v in Remaining(out, j, i + 1) {
      var l :| l in out[1..j] + out[i..] && l.v == v;
      if l in out[i..] {
        var h :| 0 <= h < |out[i..]| && out[i..][h] == l;
        assert out[i + 1..][h - 1] == l;
      }
      assert l in out[1..j] + out[i + 1..];
    }
  }

  lemma UipPermuted(s: State, t: State, seen: seq<bool>, p: Lit, rest: Clause)
    requires UipFound(s, seen, p, rest) && Extends(s, t) && t == s.(ca := t.ca)
    ensures UipFound(t, seen, p, rest)
  {
    var cut := seen[p.v := true];
    forall m | Models(t, m) ensures Blocked(t, cut, m) {
      assert Models(s, m) && Blocked(s, cut, m);
    }
  }

  /** A literal whose reason is covered entirely (ccmin mode 1). */
  lemma BasicJustified(s: State, seen: seq<bool>, x: Lit)
    requires TrailInv(s) && Value(s.assigns, x) == LFalse && Reason(s.vardata, x.v) != NO_REASON
    requires 0 <= Reason(s.vardata, x.v) < |s.ca|
    requires var c := s.ca[Reason(s.vardata, x.v)];
             forall k :: (if |c| == 2 then 0 else 1) <= k < |c| ==> Covered(s, seen, c[k])
    ensures Justified(s, seen, x.v)
  {
    var i := FalseOnTrail(s, x);
    assert ReasonAt(s, i);
    var c := s.ca[Reason(s.vardata, x.v)];
    if |c| != 2 { ReasonFront(s, i, Reason(s.vardata, x.v)); }
  }

  lemma ClauseVars(s: State, cr: nat)
    requires TrailInv(s) && cr < |s.ca|
    ensures forall k :: 0 <= k < |s.ca[cr]| ==> s.ca[cr][k].v < |s.vardata|
  {
    assert ClauseShape(s.ca[cr], |s.vardata|);
  }

  lemma GrowsItself(a: seq<bool>)
    ensures Grows(a, a)
  {}

  lemma GrowsTransitive(a: seq<bool>, b: seq<bool>, c: seq<bool>)
    requires Grows(a, b) && Grows(b, c)
    ensures Grows(a, c)
  {}

  lemma FilterEnd(c: Clause, out: Clause, j: nat, p: Lit, rest: Clause)
    requires c == [p.Not()] + rest && Filtered(c, out, j, |out|)
    ensures var r := out[..j];
            && |r| >= 1 && r[0] == p.Not() && DistinctVars(r) && (forall k :: 1 <= k < |r| ==> r[k] in rest)
            && 1 <= j <= |out| && Remaining(out, j, |out|) == Vars(r[1..])
  {
    var r := out[..j];
    forall k | 1 <= k < j ensures r[k] in rest {
      var h :| 0 <= h < |c[1..|out|]| && c[1..|out|][h] == out[k];
      assert rest[h] == r[k];
    }
    assert out[1..j] + out[|out|..] == r[1..];
  }

  lemma GrowsSize(a: seq<bool>, b: seq<bool>)
    requires Grows(a, b)
    ensures |a| == |b|
  {}

  // ------------------------------------------------------- minimisation with binary clauses

  /** The binary clauses of the asserting literal a: a true literal beside it allows the false one of the
      same variable to be resolved away. */
  ghost predicate Resolvable(s: State, a: Lit, v: nat) {
    exists imp: Lit :: imp.v == v && Value(s.assigns, imp) == LTrue && BinaryPair(s, a, imp)
  }

  ghost predicate BinaryPair(s: State, a: Lit, b: Lit) {
    exists cr :: 0 <= cr < |s.ca| && |s.ca[cr]| == 2 && a in s.ca[cr] && b in s.ca[cr] && a != b
  }

  lemma BinaryPairTrue(s: State, a: Lit, b: Lit, m: Model)
    requires BinaryPair(s, a, b) && Models(s, m) && !LitTrue(m, b)
    ensures LitTrue(m, a)
  {
    var cr :| 0 <= cr < |s.ca| && |s.ca[cr]| == 2 && a in s.ca[cr] && b in s.ca[cr] && a != b;
    var c := s.ca[cr];
    assert ClauseTrue(m, c);
    var l :| l in c && LitTrue(m, l);
    var i, j, k :| 0 <= i < 2 && 0 <= j < 2 && 0 <= k < 2 && c[i] == a && c[j] == b && c[k] == l;
  }

  lemma WatcherResolves(s: State, c: Clause, k: nat)
    requires SolverInv(s, |s.trailLim|) && LearntOk(s, c)
    requires c[0].Not() in s.watchesBin && k < |s.watchesBin[c[0].Not()]|
    requires Value(s.assigns, s.watchesBin[c[0].Not()][k].blocker) == LTrue
    ensures Resolvable(s, c[0], s.watchesBin[c[0].Not()][k].blocker.v)
  {
    var w := s.watchesBin[c[0].Not()][k];
    assert BinaryShape(s, c[0].Not(), w);
    assert c[0].Not().Not() == c[0];
    assert BinaryPair(s, c[0], w.blocker);
  }

  lemma ResolvedClause(s: State, c: Clause, d: Clause)
    requires LearntOk(s, c) && |d| >= 1 && d[0] == c[0] && DistinctVars(d)
    requires forall k :: 1 <= k < |d| ==> d[k] in c[1..]
    requires forall l :: l in c && l !in d ==> Resolvable(s, c[0], l.v)
    ensures LearntOk(s, d)
  {
    forall k | 1 <= k < |d| ensures d[k].v < |s.vardata| && Value(s.assigns, d[k]) == LFalse && 0 < Level(s.vardata, d[k].v) < |s.trailLim| {
      var h :| 0 <= h < |c[1..]| && c[1..][h] == d[k];
      assert c[h + 1] == d[k];
    }
    forall m | Models(s, m) ensures ClauseTrue(m, d) {
      assert ClauseTrue(m, c);
      var l :| l in c && LitTrue(m, l);
      if l !in d {
        assert Resolvable(s, c[0], l.v);
        var imp: Lit :| imp.v == l.v && Value(s.assigns, imp) == LTrue && BinaryPair(s, c[0], imp);
        var h :| 0 <= h < |c| && c[h] == l;
        assert Value(s.assigns, l) == LFalse;
        BinaryPairTrue(s, c[0], imp, m);
        assert d[0] in d;
      }
    }
  }

  lemma {:induction false} VarsCard(c: Clause)
    requires DistinctVars(c)
    ensures |Vars(c)| == |c|
  {
    if |c| > 0 {
      var n := |c| - 1;
      VarsCard(c[..n]);
      assert c == c[..n] + [c[n]];
      assert Vars(c) == Vars(c[..n]) + {c[n].v} by {
        forall v | v in Vars(c) ensures v in Vars(c[..n]) + {c[n].v} {
          var l :| l in c && l.v == v;
          assert l in c[..n] || l == c[n];
        }
        forall v | v in Vars(c[..n]) + {c[n].v} ensures v in Vars(c) {
          if v != c[n].v { var l :| l in c[..n] && l.v == v; assert l in c; } else { assert c[n] in c; }
        }
      }
      forall l | l in c[..n] ensures l.v != c[n].v {
        var k :| 0 <= k < n && c[..n][k] == l;
        assert c[k] == l;
      }
    }
  }

  /** The loop that moves the `nb` resolved literals to the end: those beyond l are resolved,
      those before i are not. */
  ghost predicate Sorting(c: Clause, d: Clause, gone: set<nat>, i: nat, l: nat) {
    && |d| == |c| >= 1 && d[0] == c[0] && DistinctVars(d) && SameLits(c, d)
    && 1 <= i && l < |d| && |d| - 1 - l <= |gone| && i <= |d| - |gone|
    && (forall k :: 1 <= k < i ==> d[k].v !in gone)
    && (forall k :: l < k < |d| ==> d[k].v in gone)
  }

  lemma SortingSwap(c: Clause, d: Clause, gone: set<nat>, i: nat, l: nat)
    requires Sorting(c, d, gone, i, l) && i < |d| - |gone| && d[i].v in gone
    ensures i < l && Sorting(c, d[l := d[i]][i := d[l]], gone, i, l - 1)
  {
    var n := |d|;
    var tail := [d[i]] + d[l + 1..];
    assert i <= l;
    forall a, b | 0 <= a < b < |tail| ensures tail[a].v != tail[b].v {
      assert tail[b] == d[l + b];
    }
    VarsCard(tail);
    forall v | v in Vars(tail) ensures v in gone {
      var x :| x in tail && x.v == v;
      var k :| 0 <= k < |tail| && tail[k] == x;
      if k > 0 { assert tail[k] == d[l + k]; }
    }
    SubsetCard(Vars(tail), gone);
    var e := d[l := d[i]][i := d[l]];
    assert forall k :: 0 <= k < n ==> e[k] == d[if k == i then l else if k == l then i else k];
    assert forall k :: 0 <= k < n ==> d[k] == e[if k == i then l else if k == l then i else k];
  }

  lemma SortingDone(c: Clause, d: Clause, gone: set<nat>, i: nat, l: nat)
    requires Sorting(c, d, gone, i, l) && i == |d| - |gone|
    requires forall v :: v in gone ==> v != c[0].v && VarIn(c, v)
    ensures var r := d[..i];
            && |r| >= 1 && r[0] == c[0] && DistinctVars(r)
            && (forall k :: 1 <= k < |r| ==> r[k] in c[1..])
            && (forall x :: x in r <==> x in c && x.v !in gone)
  {
    var r, tail := d[..i], d[i..];
    forall a, b | 0 <= a < b < |tail| ensures tail[a].v != tail[b].v {
      assert tail[a] == d[i + a] && tail[b] == d[i + b];
    }
    VarsCard(tail);
    forall v | v in gone ensures v in Vars(tail) {
      assert VarIn(c, v);
      var k :| 0 <= k < |c| && c[k].v == v;
      assert c[k] in d;
      var h :| 0 <= h < |d| && d[h] == c[k];
      assert h >= i;
      assert tail[h - i] == d[h];
    }
    SubsetCard(gone, Vars(tail));
    forall k | 1 <= k < |r| ensures r[k] in c[1..] {
      assert r[k] in d && r[k] in c;
      var h :| 0 <= h < |c| && c[h] == r[k];
      assert d[0].v != d[k].v;
      assert c[1..][h - 1] == r[k];
    }
    forall x | x in c && x !in r ensures x.v in gone {
      assert x in d;
      var h :| 0 <= h < |d| && d[h] == x;
      assert forall k :: 0 <= k < i ==> r[k] == d[k] && r[k] in r;
      assert tail[h - i] == x;
    }
  }

  lemma ClauseNonEmpty(s: State, c: Clause)
    requires LearntOk(s, c)
    ensures |c| >= 1 && DistinctVars(c)
  {}

  lemma LearntHead(s: State, c: Clause)
    requires SolverInv(s, |s.trailLim|) && LearntOk(s, c)
    ensures c[0].Not() in s.watchesBin
  {}

  lemma MarkedVars(c: Clause)
    requires |c| >= 1 && DistinctVars(c)
    ensures forall l :: l in c[1..] ==> l.v != c[0].v && VarIn(c, l.v)
  {
    forall l | l in c[1..] ensures l.v != c[0].v && VarIn(c, l.v) {
      var k :| 0 <= k < |c[1..]| && c[1..][k] == l;
      assert c[k + 1].v == l.v;
    }
  }

  /** The resolved variables fit behind the first literal. */
  lemma GoneBound(c: Clause, gone: set<nat>)
    requires |c| >= 1 && DistinctVars(c)
    requires forall v :: v in gone ==> v != c[0].v && VarIn(c, v)
    ensures |gone| <= |c| - 1
  {
    forall a, b | 0 <= a < b < |c[1..]| ensures c[1..][a].v != c[1..][b].v {
      assert c[1..][a] == c[a + 1] && c[1..][b] == c[b + 1];
    }
    VarsCard(c[1..]);
    forall v | v in gone ensures v in Vars(c[1..]) {
      var k :| 0 <= k < |c| && c[k].v == v;
      assert c[1..][k - 1] == c[k];
    }
    SubsetCard(gone, Vars(c[1..]));
  }

  /** A learnt clause ready to be asserted after returning to level bt. */
  ghost predicate Asserting(s: State, c: Clause, bt: nat) {
    && LearntOk(s, c)
    && (|c| == 1 ==> bt == 0)
    && (|c| > 1 ==> bt == Level(s.vardata, c[1].v))
    && forall k :: 1 <= k < |c| ==> Level(s.vardata, c[k].v) <= bt
  }

  lemma SwapAsserting(s: State, c: Clause, k: nat)
    requires LearntOk(s, c) && 1 <= k < |c|
    requires forall i :: 1 <= i < |c| ==> Level(s.vardata, c[i].v) <= Level(s.vardata, c[k].v)
    ensures Asserting(s, c[k := c[1]][1 := c[k]], Level(s.vardata, c[k].v))
  {
    var d := c[k := c[1]][1 := c[k]];
    assert forall i :: 0 <= i < |c| ==> d[i] == c[if i == 1 then k else if i == k then 1 else i];
    assert forall i :: 0 <= i < |c| ==> c[i] == d[if i == 1 then k else if i == k then 1 else i];
    ImpliedSame(s, c, d);
  }

  lemma ImpliedSame(s: State, c: Clause, d: Clause)
    requires Implied(s, c) && forall l :: l in c ==> l in d
    ensures Implied(s, d)
  {
    forall m | Models(s, m) ensures ClauseTrue(m, d) {
      assert ClauseTrue(m, c);
      var l :| l in c && LitTrue(m, l);
      assert l in d;
    }
  }
}
