/** Why the resolution loop ends at the first unique implication point: its marks are the literals of the
    current level through which earlier ones reach the conflict. */
module CdclUip {
  import opened Sat
  import opened CdclState
  import opened CdclWatches
  import opened CdclPropagate
  import opened CdclAnalyze
  import opened CdclMinimize

  // ------------------------------------------------------- the implication graph, over trail positions

  /** trail[i] was propagated by a clause with the earlier trail[k]. */
  ghost predicate Edge(s: State, i: nat, k: nat) {
    && k < i < |s.trail| && 0 <= Reason(s.vardata, s.trail[i].v) < |s.ca|
    && VarIn(s.ca[Reason(s.vardata, s.trail[i].v)], s.trail[k].v)
  }

  ghost predicate InConflict(s: State, confl: nat, k: nat) {
    confl < |s.ca| && k < |s.trail| && VarIn(s.ca[confl], s.trail[k].v)
  }

  /** trail[k] reaches the conflict through positions from lo on. */
  ghost predicate Feeds(s: State, confl: nat, lo: nat, k: nat)
    decreases |s.trail| - k
  {
    k < |s.trail| && (InConflict(s, confl, k) || exists i: nat :: lo <= i && Edge(s, i, k) && Feeds(s, confl, lo, i))
  }

  /** trail[k] reaches the conflict without position u. */
  ghost predicate Avoids(s: State, confl: nat, u: nat, k: nat)
    decreases |s.trail| - k
  {
    k < |s.trail| && k != u && (InConflict(s, confl, k) || exists i: nat :: Edge(s, i, k) && Avoids(s, confl, u, i))
  }

  /** A unique implication point: what the current level holds before u reaches the conflict through u only. */
  ghost predicate Separates(s: State, confl: nat, u: nat) {
    LevelStart(s) <= u < |s.trail| && Feeds(s, confl, u + 1, u) && forall k: nat :: LevelStart(s) <= k < u ==> !Avoids(s, confl, u, k)
  }

  /** The last one on the trail, the first that is met from the conflict. */
  ghost predicate FirstSeparator(s: State, confl: nat, u: nat) {
    Separates(s, confl, u) && forall h: nat :: u < h < |s.trail| ==> !Separates(s, confl, h)
  }

  // ------------------------------------------------------- the marks

  /** Facts of level 0 are left out of the analysis. */
  ghost predicate Counts(s: State, k: nat) {
    k < |s.trail| && Level(s.vardata, s.trail[k].v) > 0
  }

  /** Before position hi, the marks are what reaches the conflict through positions from hi on. */
  ghost predicate Traced(s: State, confl: nat, seen: seq<bool>, hi: nat) {
    && hi <= |s.trail| && (forall k: nat :: LevelStart(s) <= k < |s.trail| ==> Counts(s, k))
    && forall k: nat :: k < hi && Counts(s, k) ==> (Seen(seen, s.trail[k].v) <==> Feeds(s, confl, hi, k))
  }

  /** The earlier levels' variables that reach the conflict through positions behind u. */
  ghost function Below(s: State, confl: nat, u: nat): set<nat> {
    set k: nat | k < |s.trail| && k < LevelStart(s) && Counts(s, k) && Feeds(s, confl, u + 1, k) :: s.trail[k].v
  }

  /** p stands at the first unique implication point, and vs is what lies below it. */
  ghost predicate IsFirstUip(s: State, confl: nat, p: Lit, vs: set<nat>) {
    exists u: nat :: u < |s.trail| && s.trail[u] == p && FirstSeparator(s, confl, u) && vs == Below(s, confl, u)
  }

  /** Something of the level before h reaches the conflict through positions behind h. */
  ghost predicate Bypassed(s: State, confl: nat, h: nat) {
    FedBefore(s, confl, h + 1, h)
  }

  ghost predicate FedBefore(s: State, confl: nat, lo: nat, h: nat) {
    exists k: nat :: LevelStart(s) <= k < h && Feeds(s, confl, lo, k)
  }

  ghost predicate AllBypassed(s: State, confl: nat, hi: nat) {
    forall h: nat :: hi <= h < |s.trail| ==> Bypassed(s, confl, h)
  }

  /** Position x has been taken out of the marks, its reason is still to be marked. */
  ghost predicate Popped(s: State, confl: nat, seen: seq<bool>, x: nat) {
    && LevelStart(s) <= x < |s.trail| && Feeds(s, confl, x + 1, x) && AllBypassed(s, confl, x + 1)
    && (forall k: nat :: LevelStart(s) <= k < |s.trail| ==> Counts(s, k))
    && forall k: nat :: k < x && Counts(s, k) ==> (Seen(seen, s.trail[k].v) <==> Feeds(s, confl, x + 1, k))
  }

  /** Exactly the variables of the clause above level 0, but one, have been marked. */
  ghost predicate Added(s: State, before: seq<bool>, after: seq<bool>, c: Clause, except: int) {
    forall v: nat :: Seen(after, v) <==> Seen(before, v) || (v != except && Level(s.vardata, v) > 0 && VarIn(c, v))
  }

  /** The literals of the clause from position j0 up to j have been marked. */
  ghost predicate AddedUpTo(s: State, before: seq<bool>, after: seq<bool>, c: Clause, j0: nat, j: nat) {
    && j0 <= j <= |c|
    && forall v: nat :: Seen(after, v) <==> Seen(before, v) || (Level(s.vardata, v) > 0 && VarIn(c[j0..j], v))
  }

  lemma AddedNone(s: State, seen: seq<bool>, c: Clause, j0: nat)
    requires j0 <= |c|
    ensures AddedUpTo(s, seen, seen, c, j0, j0)
  {}

  lemma AddedNext(s: State, before: seq<bool>, seen: seq<bool>, c: Clause, j0: nat, j: nat)
    requires AddedUpTo(s, before, seen, c, j0, j) && j < |c| && c[j].v < |seen|
    ensures Level(s.vardata, c[j].v) > 0 ==> AddedUpTo(s, before, seen[c[j].v := true], c, j0, j + 1)
    ensures seen[c[j].v] || Level(s.vardata, c[j].v) == 0 ==> AddedUpTo(s, before, seen, c, j0, j + 1)
  {
    AppendLit(c[j0..j], c[j]);
    assert c[j0..j + 1] == c[j0..j] + [c[j]];
    var after := seen[c[j].v := true];
    forall v: nat ensures VarIn(c[j0..j + 1], v) <==> VarIn(c[j0..j], v) || v == c[j].v {
      if VarIn(c[j0..j + 1], v) && v != c[j].v {
        var k :| 0 <= k < |c[j0..j + 1]| && c[j0..j + 1][k].v == v;
        assert c[j0..j][k].v == v;
      }
    }
    forall v: nat ensures Seen(after, v) <==> Seen(seen, v) || v == c[j].v {}
  }

  /** All of the conflict clause, or all of a reason but the literal it implied. */
  lemma AddedWhole(s: State, before: seq<bool>, seen: seq<bool>, hi: nat, pathC: nat, start: nat, cr: nat)
    requires TrailInv(s) && Pending(s, before, hi, pathC, start, cr) && start <= |s.ca[cr]|
    requires start == 1 && |s.ca[cr]| == 2 ==> Value(s.assigns, s.ca[cr][0]) != LFalse
    requires AddedUpTo(s, before, seen, s.ca[cr], start, |s.ca[cr]|)
    ensures Added(s, before, seen, s.ca[cr], if start == 0 then -1 else s.trail[hi].v)
  {
    var c := s.ca[cr];
    if start == 0 {
      assert c[0..|c|] == c;
    } else {
      ReasonFront(s, hi, cr);
      forall v: nat ensures VarIn(c[1..|c|], v) <==> v != s.trail[hi].v && VarIn(c, v) {
        if VarIn(c[1..|c|], v) {
          var k :| 0 <= k < |c[1..|c|]| && c[1..|c|][k].v == v;
          assert c[k + 1].v == v;
        }
        if v != s.trail[hi].v && VarIn(c, v) {
          var k :| 0 <= k < |c| && c[k].v == v;
          assert c[1..|c|][k - 1].v == v;
        }
      }
    }
  }

  /** Where the loop stands: nothing marked yet, or a popped position whose reason comes next. */
  ghost predicate Tracking(s: State, conflict: nat, seen: seq<bool>, hi: nat, start: nat, cr: int) {
    if start == 0 then hi == |s.trail| && cr == conflict && conflict < |s.ca| && forall v :: !Seen(seen, v)
    else Popped(s, conflict, seen, hi) && AllBypassed(s, conflict, hi) && hi < |s.trail| && cr == Reason(s.vardata, s.trail[hi].v)
  }

  lemma TrackingSame(s: State, t: State, conflict: nat, seen: seq<bool>, hi: nat, start: nat, cr: int)
    requires Reordered(s, t) && Tracking(s, conflict, seen, hi, start, cr)
    ensures Tracking(t, conflict, seen, hi, start, cr)
  {
    if start != 0 {
      PoppedSame(s, t, conflict, seen, hi);
      BypassedSame(s, t, conflict, hi);
    }
  }

  /** Marking the pending clause. */
  lemma TrackingMarked(s: State, conflict: nat, before: seq<bool>, seen: seq<bool>, hi: nat, pathC: nat, start: nat, cr: nat)
    requires TrailInv(s) && |s.trailLim| > 0 && Tracking(s, conflict, before, hi, start, cr)
    requires Pending(s, before, hi, pathC, start, cr) && start <= 1
    requires Added(s, before, seen, s.ca[cr], if start == 0 then -1 else s.trail[hi].v)
    ensures Traced(s, conflict, seen, hi) && AllBypassed(s, conflict, hi)
  {
    if start == 0 {
      StartTraced(s, conflict, before, seen);
    } else {
      ExpandTraced(s, conflict, before, seen, hi, cr);
    }
  }

  // ------------------------------------------------------- lemmas about the graph

  /** Unmarked positions may be passed over. */
  lemma {:induction false} FeedsLower(s: State, confl: nat, hi: nat, lo: nat, k: nat)
    requires lo <= hi && forall j: nat :: lo <= j < hi ==> !Feeds(s, confl, hi, j)
    ensures Feeds(s, confl, lo, k) <==> Feeds(s, confl, hi, k)
    decreases |s.trail| - k
  {
    if k < |s.trail| {
      if i: nat :| lo <= i && Edge(s, i, k) && Feeds(s, confl, lo, i) {
        FeedsLower(s, confl, hi, lo, i);
        assert i >= hi;
      }
      if i: nat :| hi <= i && Edge(s, i, k) && Feeds(s, confl, hi, i) {
        FeedsLower(s, confl, hi, lo, i);
      }
    }
  }

  lemma {:induction false} FeedsUpper(s: State, confl: nat, x: nat, k: nat)
    requires k >= x
    ensures Feeds(s, confl, x, k) <==> Feeds(s, confl, x + 1, k)
    decreases |s.trail| - k
  {
    if k < |s.trail| {
      forall i: nat | Edge(s, i, k) ensures Feeds(s, confl, x, i) <==> Feeds(s, confl, x + 1, i) { FeedsUpper(s, confl, x, i); }
    }
  }

  /** Expanding position x adds what its reason holds. */
  lemma FeedsNext(s: State, confl: nat, x: nat, k: nat)
    requires Feeds(s, confl, x + 1, x) && k < x
    ensures Feeds(s, confl, x, k) <==> Feeds(s, confl, x + 1, k) || Edge(s, x, k)
  {
    FeedsUpper(s, confl, x, x);
    forall i: nat | x < i && Edge(s, i, k) ensures Feeds(s, confl, x, i) <==> Feeds(s, confl, x + 1, i) { FeedsUpper(s, confl, x, i); }
  }

  lemma {:induction false} FeedsAvoids(s: State, confl: nat, h: nat, k: nat)
    requires k != h && Feeds(s, confl, h + 1, k)
    ensures Avoids(s, confl, h, k)
    decreases |s.trail| - k
  {
    if !InConflict(s, confl, k) {
      var i: nat :| h + 1 <= i && Edge(s, i, k) && Feeds(s, confl, h + 1, i);
      FeedsAvoids(s, confl, h, i);
    }
  }

  /** A path around u leaves the part before u at some position. */
  lemma {:induction false} AvoidsFeeds(s: State, confl: nat, u: nat, k: nat) returns (j: nat)
    requires Avoids(s, confl, u, k)
    ensures j >= k && Feeds(s, confl, u + 1, j) && (k < u ==> j < u) && (k > u ==> j == k)
    decreases |s.trail| - k
  {
    j := k;
    if !InConflict(s, confl, k) {
      var i: nat :| Edge(s, i, k) && Avoids(s, confl, u, i);
      var m := AvoidsFeeds(s, confl, u, i);
      if i < u { j := m; }
    }
  }

  // ------------------------------------------------------- steps of the loop

  lemma StartTraced(s: State, confl: nat, before: seq<bool>, seen: seq<bool>)
    requires TrailInv(s) && |s.trailLim| > 0 && confl < |s.ca| && (forall v :: !Seen(before, v)) && Added(s, before, seen, s.ca[confl], -1)
    ensures Traced(s, confl, seen, |s.trail|)
  {
    forall k: nat | k < |s.trail| ensures LevelStart(s) <= k ==> Counts(s, k) { PositionLevel(s, k); }
    forall k: nat | Counts(s, k) ensures Seen(seen, s.trail[k].v) <==> Feeds(s, confl, |s.trail|, k) {}
  }

  lemma ExpandTraced(s: State, confl: nat, before: seq<bool>, seen: seq<bool>, x: nat, r: nat)
    requires TrailInv(s) && Popped(s, confl, before, x) && r < |s.ca| && r == Reason(s.vardata, s.trail[x].v)
    requires Added(s, before, seen, s.ca[r], s.trail[x].v)
    ensures Traced(s, confl, seen, x)
  {
    forall k: nat | k < x && Counts(s, k) ensures Seen(seen, s.trail[k].v) <==> Feeds(s, confl, x, k) {
      FeedsNext(s, confl, x, k);
      assert s.trail[k].v != s.trail[x].v;
    }
  }

  lemma ScanTraced(s: State, confl: nat, seen: seq<bool>, hi: nat, lo: nat)
    requires Traced(s, confl, seen, hi) && LevelStart(s) <= lo <= hi
    requires forall k :: lo <= k < hi ==> !Seen(seen, s.trail[k].v)
    ensures Traced(s, confl, seen, lo)
  {
    forall k: nat ensures Feeds(s, confl, lo, k) <==> Feeds(s, confl, hi, k) { FeedsLower(s, confl, hi, lo, k); }
  }

  /** Positions passed over are bypassed by the one found. */
  lemma PopTraced(s: State, confl: nat, seen: seq<bool>, hi0: nat, hi: nat)
    requires TrailInv(s) && Traced(s, confl, seen, hi0) && AllBypassed(s, confl, hi0)
    requires LevelStart(s) < hi <= hi0 && Seen(seen, s.trail[hi - 1].v)
    requires forall k :: hi <= k < hi0 ==> !Seen(seen, s.trail[k].v)
    ensures Popped(s, confl, seen[s.trail[hi - 1].v := false], hi - 1)
  {
    hide Feeds;
    var x: nat := hi - 1;
    ScanTraced(s, confl, seen, hi0, hi);
    forall h: nat | hi <= h < |s.trail| ensures Bypassed(s, confl, h) {
      if h < hi0 { PassedOver(s, confl, seen, hi0, hi, h); }
    }
    forall k: nat | k < x ensures s.trail[k].v != s.trail[x].v {}
    hide TrailInv, Bypassed;
  }

  lemma PassedOver(s: State, confl: nat, seen: seq<bool>, hi0: nat, hi: nat, h: nat)
    requires Traced(s, confl, seen, hi0) && LevelStart(s) < hi <= h < hi0 && Seen(seen, s.trail[hi - 1].v)
    requires forall k :: hi <= k < hi0 ==> !Seen(seen, s.trail[k].v)
    ensures Bypassed(s, confl, h)
  {
    hide Feeds;
    ScanTraced(s, confl, seen, hi0, h + 1);
    assert Feeds(s, confl, h + 1, hi - 1);
  }

  /** With marks left, x is bypassed too. */
  lemma MoreBypassed(s: State, confl: nat, seen: seq<bool>, x: nat, k: nat)
    requires Popped(s, confl, seen, x) && LevelStart(s) <= k < x && Seen(seen, s.trail[k].v)
    ensures AllBypassed(s, confl, x)
  {
    assert Bypassed(s, confl, x);
  }

  /** What is left of the marks then are the variables of earlier levels. */
  lemma BelowReached(s: State, confl: nat, seen: seq<bool>, rest: Clause, x: nat)
    requires TrailInv(s) && Analysis(s, seen, rest, x, 0) && Popped(s, confl, seen, x)
    ensures Vars(rest) == Below(s, confl, x)
  {
    hide TrailReasons, ClausesOk, QueueOk, Feeds;
    forall v ensures v in Below(s, confl, x) <==> v in Vars(rest) {
      if v in Below(s, confl, x) {
        var k: nat :| k < |s.trail| && k < LevelStart(s) && Counts(s, k) && Feeds(s, confl, x + 1, k) && s.trail[k].v == v;
        PositionLevel(s, k);
        assert VarIn(rest, v);
        var i :| 0 <= i < |rest| && rest[i].v == v;
        assert rest[i] in rest;
      }
      if v in Vars(rest) {
        var q :| q in rest && q.v == v;
        var k := FalseOnTrail(s, q);
        PositionLevel(s, k);
        assert Counts(s, k);
      }
    }
  }

  /** Without marks left, x is the first unique implication point. */
  lemma FirstReached(s: State, confl: nat, seen: seq<bool>, x: nat)
    requires Popped(s, confl, seen, x) && forall k :: LevelStart(s) <= k < x ==> !Seen(seen, s.trail[k].v)
    ensures FirstSeparator(s, confl, x)
  {
    forall k: nat | LevelStart(s) <= k < x ensures !Avoids(s, confl, x, k) {
      if Avoids(s, confl, x, k) {
        var j := AvoidsFeeds(s, confl, x, k);
      }
    }
    forall h: nat | x < h < |s.trail| ensures !Separates(s, confl, h) {
      assert Bypassed(s, confl, h) && FedBefore(s, confl, h + 1, h);
      var k: nat :| LevelStart(s) <= k < h && Feeds(s, confl, h + 1, k);
      FeedsAvoids(s, confl, h, k);
    }
  }

  lemma ExtendsReordered(s: State, t: State)
    requires Extends(s, t) && t == s.(ca := t.ca)
    ensures Reordered(s, t)
  {}

  lemma StartTracking(s: State, confl: nat, seen: seq<bool>)
    requires ConflictClause(s, confl) && forall v :: !Seen(seen, v)
    ensures Tracking(s, confl, seen, |s.trail|, 0, confl)
  {}

  lemma UipIsFirst(s0: State, s: State, confl: nat, seen: seq<bool>, rest: Clause, hi: nat)
    requires TrailInv(s) && Analysis(s, seen, rest, hi, 0) && Popped(s, confl, seen, hi) && Extends(s0, s) && s == s0.(ca := s.ca)
    ensures hi < |s.trail| && IsFirstUip(s0, confl, s.trail[hi], Vars(rest))
  {
    FirstUipHere(s, confl, seen, rest, hi);
    hide TrailInv, Analysis, IsFirstUip, Popped;
    ExtendsReordered(s0, s);
    FirstUipSame(s0, s, confl, s.trail[hi], Vars(rest));
  }

  lemma FirstUipHere(s: State, confl: nat, seen: seq<bool>, rest: Clause, hi: nat)
    requires TrailInv(s) && Analysis(s, seen, rest, hi, 0) && Popped(s, confl, seen, hi)
    ensures hi < |s.trail| && IsFirstUip(s, confl, s.trail[hi], Vars(rest))
  {
    BelowReached(s, confl, seen, rest, hi);
    hide Below;
    CountZero(s.trail, seen, LevelStart(s), hi);
    FirstReached(s, confl, seen, hi);
  }

  lemma NextTracking(s: State, confl: nat, seen: seq<bool>, rest: Clause, hi: nat, pathC: nat)
    requires Analysis(s, seen, rest, hi, pathC) && pathC > 0 && Popped(s, confl, seen, hi)
    ensures hi < |s.trail| && Tracking(s, confl, seen, hi, 1, Reason(s.vardata, s.trail[hi].v))
  {
    CountSomeSeen(s.trail, seen, LevelStart(s), hi);
    var k: nat :| LevelStart(s) <= k < hi && Seen(seen, s.trail[k].v);
    MoreBypassed(s, confl, seen, hi, k);
  }

  // ------------------------------------------------------- reordered clauses

  ghost predicate Reordered(s: State, t: State) {
    t == s.(ca := t.ca) && |t.ca| == |s.ca| && forall cr :: 0 <= cr < |s.ca| ==> SameLits(s.ca[cr], t.ca[cr])
  }

  lemma SameVars(c: Clause, d: Clause, v: nat)
    requires SameLits(c, d)
    ensures VarIn(c, v) <==> VarIn(d, v)
  {
    if VarIn(c, v) {
      var k :| 0 <= k < |c| && c[k].v == v;
      assert c[k] in d;
    }
    if VarIn(d, v) {
      var k :| 0 <= k < |d| && d[k].v == v;
      assert d[k] in c;
    }
  }

  lemma EdgeSame(s: State, t: State, i: nat, k: nat)
    requires Reordered(s, t)
    ensures Edge(s, i, k) <==> Edge(t, i, k)
  {
    if k < i < |s.trail| && 0 <= Reason(s.vardata, s.trail[i].v) < |s.ca| {
      var r := Reason(s.vardata, s.trail[i].v);
      SameVars(s.ca[r], t.ca[r], s.trail[k].v);
    }
  }

  lemma {:induction false} FeedsSame(s: State, t: State, confl: nat, lo: nat, k: nat)
    requires Reordered(s, t)
    ensures Feeds(s, confl, lo, k) <==> Feeds(t, confl, lo, k)
    decreases |s.trail| - k
  {
    if k < |s.trail| {
      if confl < |s.ca| { SameVars(s.ca[confl], t.ca[confl], s.trail[k].v); }
      forall i: nat | Edge(s, i, k) || Edge(t, i, k)
        ensures (Edge(s, i, k) <==> Edge(t, i, k)) && (Feeds(s, confl, lo, i) <==> Feeds(t, confl, lo, i))
      {
        EdgeSame(s, t, i, k);
        FeedsSame(s, t, confl, lo, i);
      }
    }
  }

  lemma BypassedSame(s: State, t: State, confl: nat, hi: nat)
    requires Reordered(s, t) && AllBypassed(s, confl, hi)
    ensures AllBypassed(t, confl, hi)
  {
    forall h: nat | hi <= h < |t.trail| ensures Bypassed(t, confl, h) {
      assert Bypassed(s, confl, h) && FedBefore(s, confl, h + 1, h);
      var k: nat :| LevelStart(s) <= k < h && Feeds(s, confl, h + 1, k);
      FeedsSame(s, t, confl, h + 1, k);
    }
  }

  lemma FirstUipSame(s: State, t: State, confl: nat, p: Lit, vs: set<nat>)
    requires Reordered(s, t) && IsFirstUip(t, confl, p, vs)
    ensures IsFirstUip(s, confl, p, vs)
  {
    var u: nat :| u < |t.trail| && t.trail[u] == p && FirstSeparator(t, confl, u) && vs == Below(t, confl, u);
    forall h: nat | h < |s.trail| ensures Separates(s, confl, h) <==> Separates(t, confl, h) { SeparatesSame(s, t, confl, h); }
    var lo: nat := u + 1;
    forall k: nat ensures Feeds(s, confl, lo, k) <==> Feeds(t, confl, lo, k) { FeedsSame(s, t, confl, lo, k); }
    hide Separates, Feeds;
    assert FirstSeparator(s, confl, u);
    assert Below(s, confl, u) == Below(t, confl, u);
  }

  lemma SeparatesSame(s: State, t: State, confl: nat, u: nat)
    requires Reordered(s, t)
    ensures Separates(s, confl, u) <==> Separates(t, confl, u)
  {
    FeedsSame(s, t, confl, u + 1, u);
    forall k: nat ensures Avoids(s, confl, u, k) <==> Avoids(t, confl, u, k) { AvoidsSame(s, t, confl, u, k); }
  }

  lemma {:induction false} AvoidsSame(s: State, t: State, confl: nat, u: nat, k: nat)
    requires Reordered(s, t)
    ensures Avoids(s, confl, u, k) <==> Avoids(t, confl, u, k)
    decreases |s.trail| - k
  {
    if k < |s.trail| {
      if confl < |s.ca| { SameVars(s.ca[confl], t.ca[confl], s.trail[k].v); }
      forall i: nat | Edge(s, i, k) || Edge(t, i, k)
        ensures (Edge(s, i, k) <==> Edge(t, i, k)) && (Avoids(s, confl, u, i) <==> Avoids(t, confl, u, i))
      {
        EdgeSame(s, t, i, k);
        AvoidsSame(s, t, confl, u, i);
      }
    }
  }

  lemma PoppedSame(s: State, t: State, confl: nat, seen: seq<bool>, x: nat)
    requires Reordered(s, t) && Popped(s, confl, seen, x)
    ensures Popped(t, confl, seen, x)
  {
    var lo: nat := x + 1;
    BypassedSame(s, t, confl, lo);
    forall k: nat ensures Feeds(s, confl, lo, k) <==> Feeds(t, confl, lo, k) { FeedsSame(s, t, confl, lo, k); }
    hide Feeds, AllBypassed, SameLits;
    forall k: nat | k < x && Counts(t, k) ensures Seen(seen, t.trail[k].v) <==> Feeds(t, confl, lo, k) {
      assert Counts(s, k);
    }
    forall k: nat | LevelStart(t) <= k < |t.trail| ensures Counts(t, k) {
      assert Counts(s, k);
    }
  }
}
