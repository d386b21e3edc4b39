/** One visit of a watcher, as state updates, and what each update keeps. */
module CdclPropagate {
  import opened Sat
  import opened CdclState
  import opened CdclWatches

  /** t is s after some unit propagation: nothing assigned is touched, clauses are only permuted,
      every new literal has a reason, and the models are the same. */
  ghost predicate Extends(s: State, t: State) {
    && |t.vardata| == |s.vardata| && |t.assigns| == |s.assigns| && t.trailLim == s.trailLim
    && s.trail <= t.trail
    && (forall l: Lit :: Value(s.assigns, l) != LUndef ==> Value(t.assigns, l) == Value(s.assigns, l))
    && (forall i :: 0 <= i < |s.trail| ==> Kept(s, t, s.trail[i].v))
    && (forall i :: |s.trail| <= i < |t.trail| ==> Reason(t.vardata, t.trail[i].v) != NO_REASON)
    && |t.ca| == |s.ca| && (forall cr :: 0 <= cr < |s.ca| ==> SameLits(s.ca[cr], t.ca[cr]))
    && (forall m :: Models(s, m) <==> Models(t, m))
  }

  ghost predicate Kept(s: State, t: State, v: nat) {
    Level(t.vardata, v) == Level(s.vardata, v) && Reason(t.vardata, v) == Reason(s.vardata, v)
  }

  lemma ExtendsTransitive(s: State, t: State, u: State)
    requires Extends(s, t) && Extends(t, u)
    ensures Extends(s, u)
  {
    forall i | 0 <= i < |s.trail| ensures Kept(s, u, s.trail[i].v) {
      assert Kept(s, t, s.trail[i].v);
      assert t.trail[i] == s.trail[i];
      assert Kept(t, u, t.trail[i].v);
    }
    forall i | |s.trail| <= i < |u.trail| ensures Reason(u.vardata, u.trail[i].v) != NO_REASON {
      if i < |t.trail| {
        assert u.trail[i] == t.trail[i];
        assert Kept(t, u, t.trail[i].v);
      }
    }
    forall cr | 0 <= cr < |s.ca| ensures SameLits(s.ca[cr], u.ca[cr]) {
      assert SameLits(s.ca[cr], t.ca[cr]) && SameLits(t.ca[cr], u.ca[cr]);
    }
  }

  lemma EnqueueExtends(s: State, p: Lit, from: int)
    requires TrailInv(s) && p.v < |s.vardata| && Value(s.assigns, p) == LUndef
    requires UnitFor(s, p, from)
    ensures Extends(s, Enqueue(s, p, from))
  {
    var t := Enqueue(s, p, from);
    EnqueueKeepsValues(s, p, from);
    forall m ensures Models(s, m) <==> Models(t, m) { EnqueueKeepsModels(s, p, from, m); }
  }

  // ------------------------------------------------------- enqueuing keeps the watches

  lemma EnqueueKeepsDone(s: State, p: Lit, from: int, i: nat)
    requires TrailInv(s) && p.v < |s.vardata| && Value(s.assigns, p) == LUndef && i < |s.trail|
    ensures LongDone(s, s.trail[i]) ==> LongDone(Enqueue(s, p, from), s.trail[i])
    ensures BinaryDone(s, s.trail[i]) ==> BinaryDone(Enqueue(s, p, from), s.trail[i])
    ensures forall w :: WatcherOk(s, s.trail[i], w) ==> WatcherOk(Enqueue(s, p, from), s.trail[i], w)
  {
    EnqueueKeepsValues(s, p, from);
  }

  lemma EnqueueKeepsShape(s: State, p: Lit, from: int)
    requires p.v < |s.vardata| == |s.assigns|
    requires WatchShape(s) && AllAttached(s)
    ensures WatchShape(Enqueue(s, p, from)) && AllAttached(Enqueue(s, p, from))
  {
    var t := Enqueue(s, p, from);
    forall q | q in t.watches ensures ListShape(t, q, t.watches[q]) {
      assert ListShape(s, q, s.watches[q]);
      forall k | 0 <= k < |s.watches[q]| ensures WatcherShape(t, q, s.watches[q][k]) {
        assert WatcherShape(s, q, s.watches[q][k]);
      }
    }
    forall q, k | q in t.watchesBin && 0 <= k < |t.watchesBin[q]| ensures BinaryShape(t, q, t.watchesBin[q][k]) {
      assert BinaryShape(s, q, s.watchesBin[q][k]);
    }
    forall cr | 0 <= cr < |t.ca| ensures Attached(t, cr) { assert Attached(s, cr); }
  }

  lemma EnqueueKeepsPropagated(s: State, p: Lit, from: int, q: nat, lb: nat)
    requires TrailInv(s) && p.v < |s.vardata| && Value(s.assigns, p) == LUndef
    requires Propagated(s, q, lb)
    ensures Propagated(Enqueue(s, p, from), q, lb)
  {
    var t := Enqueue(s, p, from);
    EnqueueKeepsValues(s, p, from);
    forall i | 0 <= i < q && Level(t.vardata, t.trail[i].v) < lb
      ensures LongDone(t, t.trail[i]) && BinaryDone(t, t.trail[i])
    {
      assert t.trail[i] == s.trail[i];
      EnqueueKeepsDone(s, p, from, i);
    }
  }

  // ------------------------------------------------------- permuting a clause

  ghost predicate IsReason(s: State, cr: nat) {
    exists i :: 0 <= i < |s.trail| && Reason(s.vardata, s.trail[i].v) == cr
  }

  ghost predicate Permutes(s: State, cr: nat, c: Clause) {
    && cr < |s.ca|
    && SameLits(s.ca[cr], c) && ClauseShape(c, |s.vardata|)
    && (IsReason(s, cr) && |c| > 2 ==> c == s.ca[cr])
  }

  lemma PermuteKeepsTrail(s: State, cr: nat, c: Clause)
    requires TrailInv(s) && Permutes(s, cr, c)
    ensures TrailInv(s.(ca := s.ca[cr := c]))
    ensures Extends(s, s.(ca := s.ca[cr := c]))
  {
    var t := s.(ca := s.ca[cr := c]);
    forall i | 0 <= i < |t.trail| ensures ReasonAt(t, i) && InLevel(t, i, Level(t.vardata, t.trail[i].v)) {
      assert ReasonAt(s, i) && InLevel(s, i, Level(s.vardata, s.trail[i].v));
    }
    forall m ensures Models(s, m) <==> Models(t, m) {
      assert ClauseTrue(m, c) <==> ClauseTrue(m, s.ca[cr]);
      assert forall k :: 0 <= k < |s.ca| ==> (ClauseTrue(m, s.ca[k]) <==> ClauseTrue(m, t.ca[k]));
      assert t.trail == s.trail;
    }
  }

  // ------------------------------------------------------- sweeping one watcher list

  /** The list of p = trail[idx] is being swept: its first `done` watchers are in order. */
  ghost predicate Sweep(s: State, p: Lit, idx: nat, done: nat) {
    && TrailInv(s) && WatchShape(s) && AllAttached(s)
    && idx < |s.trail| && s.trail[idx] == p && Level(s.vardata, p.v) == |s.trailLim|
    && Propagated(s, idx, |s.trailLim| + 1)
    && BinaryDone(s, p)
    && p in s.watches && done <= |s.watches[p]|
    && forall k :: 0 <= k < done ==> WatcherOk(s, p, s.watches[p][k])
  }

  lemma SweepEnqueue(s: State, p: Lit, idx: nat, done: nat, l: Lit, from: int)
    requires Sweep(s, p, idx, done)
    requires l.v < |s.vardata| && Value(s.assigns, l) == LUndef && UnitFor(s, l, from)
    ensures Sweep(Enqueue(s, l, from), p, idx, done)
  {
    EnqueueKeepsTrail(s, l, from);
    EnqueueKeepsShape(s, l, from);
    EnqueueKeepsPropagated(s, l, from, idx, |s.trailLim| + 1);
    EnqueueKeepsDone(s, l, from, idx);
    EnqueueKeepsValues(s, l, from);
  }

  /** c2 has the literals of the clause at cr and still watches the same two. */
  ghost predicate SamePair(s: State, cr: nat, c2: Clause) {
    && Permutes(s, cr, c2) && |c2| > 2
    && ((c2[0] == s.ca[cr][0] && c2[1] == s.ca[cr][1]) || (c2[0] == s.ca[cr][1] && c2[1] == s.ca[cr][0]))
  }

  lemma SamePairShape(s: State, cr: nat, c2: Clause)
    requires WatchShape(s) && AllAttached(s) && SamePair(s, cr, c2)
    ensures WatchShape(s.(ca := s.ca[cr := c2])) && AllAttached(s.(ca := s.ca[cr := c2]))
  {
    var t := s.(ca := s.ca[cr := c2]);
    forall q | q in t.watches ensures ListShape(t, q, t.watches[q]) {
      assert ListShape(s, q, s.watches[q]);
      forall k | 0 <= k < |s.watches[q]| ensures WatcherShape(t, q, s.watches[q][k]) {
        assert WatcherShape(s, q, s.watches[q][k]);
      }
    }
    forall q, k | q in t.watchesBin && 0 <= k < |t.watchesBin[q]| ensures BinaryShape(t, q, t.watchesBin[q][k]) {
      assert BinaryShape(s, q, s.watchesBin[q][k]);
    }
    forall k | 0 <= k < |t.ca| ensures |t.ca[k]| >= 2 && Attached(t, k) { assert Attached(s, k); }
  }

  lemma SamePairWatcherOk(s: State, cr: nat, c2: Clause, q: Lit, w: Watcher)
    requires SamePair(s, cr, c2) && WatcherShape(s, q, w) && WatcherOk(s, q, w)
    ensures WatcherOk(s.(ca := s.ca[cr := c2]), q, w)
  {
    if w.cref == cr {
      assert s.ca[cr][0] != s.ca[cr][1];
    }
  }

  lemma SamePairSweep(s: State, p: Lit, idx: nat, done: nat, cr: nat, c2: Clause)
    requires Sweep(s, p, idx, done) && SamePair(s, cr, c2)
    ensures Sweep(s.(ca := s.ca[cr := c2]), p, idx, done)
  {
    var t := s.(ca := s.ca[cr := c2]);
    PermuteKeepsTrail(s, cr, c2);
    SamePairShape(s, cr, c2);
    hide TrailReasons, ClausesOk, SamePair, AllAttached, WatcherOk;
    forall q, k | q in s.watches && 0 <= k < |s.watches[q]| && WatcherOk(s, q, s.watches[q][k])
      ensures WatcherOk(t, q, s.watches[q][k])
    {
      assert ListShape(s, q, s.watches[q]);
      SamePairWatcherOk(s, cr, c2, q, s.watches[q][k]);
    }
    forall i | 0 <= i < idx ensures LongDone(t, t.trail[i]) && BinaryDone(t, t.trail[i]) {
      assert InLevel(s, i, Level(s.vardata, s.trail[i].v));
      assert LongDone(s, s.trail[i]) && BinaryDone(s, s.trail[i]);
    }
  }

  lemma SameTrail(s: State, ws: map<Lit, seq<Watcher>>)
    ensures TrailInv(s) <==> TrailInv(s.(watches := ws))
    ensures forall m :: Models(s, m) <==> Models(s.(watches := ws), m)
  {
    var t := s.(watches := ws);
    assert forall i :: 0 <= i < |s.trail| ==> (ReasonAt(s, i) <==> ReasonAt(t, i));
    assert forall i :: 0 <= i < |s.trail| ==> (InLevel(s, i, Level(s.vardata, s.trail[i].v)) <==> InLevel(t, i, Level(s.vardata, s.trail[i].v)));
  }

  /** Replacing the blocker of one watcher. */
  function SetBlocker(s: State, p: Lit, j: nat, b: Lit): State
    requires p in s.watches && j < |s.watches[p]|
  {
    s.(watches := s.watches[p := s.watches[p][j := Watcher(s.watches[p][j].cref, b)]])
  }

  lemma SetBlockerSweep(s: State, p: Lit, idx: nat, j: nat, b: Lit)
    requires Sweep(s, p, idx, j) && j < |s.watches[p]|
    requires s.watches[p][j].cref < |s.ca| && b in s.ca[s.watches[p][j].cref] && b != p.Not()
    ensures Sweep(SetBlocker(s, p, j, b), p, idx, j)
  {
    var t := SetBlocker(s, p, j, b);
    SetBlockerShape(s, p, j, b);
    forall i | 0 <= i < idx ensures LongDone(t, t.trail[i]) && BinaryDone(t, t.trail[i]) {
      assert InLevel(s, i, Level(s.vardata, s.trail[i].v));
      assert LongDone(s, s.trail[i]) && BinaryDone(s, s.trail[i]);
      assert s.trail[i] != p;
      forall k | 0 <= k < |s.watches[s.trail[i]]| ensures WatcherOk(t, s.trail[i], t.watches[s.trail[i]][k]) {
        assert WatcherOk(s, s.trail[i], s.watches[s.trail[i]][k]);
      }
    }
    SameTrail(s, t.watches);
    forall k | 0 <= k < j ensures WatcherOk(t, p, t.watches[p][k]) { assert WatcherOk(s, p, s.watches[p][k]); }
  }

  lemma SetBlockerList(s: State, p: Lit, j: nat, b: Lit, q: Lit)
    requires WatchShape(s) && p in s.watches && j < |s.watches[p]| && q in s.watches
    requires s.watches[p][j].cref < |s.ca| && b in s.ca[s.watches[p][j].cref] && b != p.Not()
    ensures ListShape(SetBlocker(s, p, j, b), q, SetBlocker(s, p, j, b).watches[q])
  {
    var t := SetBlocker(s, p, j, b);
    assert ListShape(s, q, s.watches[q]);
    forall k | 0 <= k < |t.watches[q]| ensures WatcherShape(t, q, t.watches[q][k]) {
      assert WatcherShape(s, q, s.watches[q][k]);
    }
  }

  lemma SetBlockerShape(s: State, p: Lit, j: nat, b: Lit)
    requires WatchShape(s) && AllAttached(s) && p in s.watches && j < |s.watches[p]|
    requires s.watches[p][j].cref < |s.ca| && b in s.ca[s.watches[p][j].cref] && b != p.Not()
    ensures WatchShape(SetBlocker(s, p, j, b)) && AllAttached(SetBlocker(s, p, j, b))
  {
    var t := SetBlocker(s, p, j, b);
    forall q | q in t.watches ensures ListShape(t, q, t.watches[q]) { SetBlockerList(s, p, j, b, q); }
    forall q, k | q in t.watchesBin && 0 <= k < |t.watchesBin[q]| ensures BinaryShape(t, q, t.watchesBin[q][k]) {
      assert BinaryShape(s, q, s.watchesBin[q][k]);
    }
    SetBlockerAttached(s, p, j, b);
  }

  lemma SetBlockerAttached(s: State, p: Lit, j: nat, b: Lit)
    requires AllAttached(s) && p in s.watches && j < |s.watches[p]|
    ensures AllAttached(SetBlocker(s, p, j, b))
  {
    var t := SetBlocker(s, p, j, b);
    forall q, cr: nat | Has(s.watches, q, cr) ensures Has(t.watches, q, cr) {
      var k :| 0 <= k < |s.watches[q]| && s.watches[q][k].cref == cr;
      assert t.watches[q][k].cref == cr;
    }
    forall k | 0 <= k < |t.ca| ensures |t.ca[k]| >= 2 && Attached(t, k) { assert Attached(s, k); }
  }

  // ------------------------------------------------------- moving a watch

  /** Drops the j-th watcher of p and puts its clause, now watching l, on the list of not l. */
  function MoveWatch(s: State, p: Lit, j: nat, l: Lit, b: Lit): State
    requires p in s.watches && j < |s.watches[p]| && l.Not() in s.watches && l.Not() != p
  {
    var q := l.Not();
    s.(watches := s.watches[p := s.watches[p][..j] + s.watches[p][j + 1..]]
                           [q := s.watches[q] + [Watcher(s.watches[p][j].cref, b)]])
  }

  /** c2 comes from the clause at cr by giving up the watch not p for l, which was not watched. */
  ghost predicate NewWatch(s: State, p: Lit, cr: nat, c2: Clause, l: Lit) {
    && Permutes(s, cr, c2) && |c2| > 2
    && (s.ca[cr][0] == p.Not() || s.ca[cr][1] == p.Not())
    && c2[0] == Other(s.ca[cr], p) && c2[1] == l
    && l != s.ca[cr][0] && l != s.ca[cr][1]
    && Value(s.assigns, l) != LFalse && Value(s.assigns, p) == LTrue
  }

  lemma NewWatchDistinct(s: State, p: Lit, cr: nat, c2: Clause, l: Lit)
    requires ClausesOk(s) && NewWatch(s, p, cr, c2, l)
    ensures l.Not() != p && c2[0] != p.Not() && c2[0].Not() != l.Not()
    ensures s.ca[cr][0] != s.ca[cr][1]
  {
    assert ClauseShape(s.ca[cr], |s.vardata|);
    assert DistinctVars(c2);
  }

  lemma MoveWatchShape(s: State, p: Lit, j: nat, c2: Clause, l: Lit, b: Lit)
    requires ClausesOk(s) && WatchShape(s) && p in s.watches && j < |s.watches[p]|
    requires NewWatch(s, p, s.watches[p][j].cref, c2, l) && b in c2 && b != l
    ensures l.Not() in s.watches && l.Not() != p
    ensures WatchShape(MoveWatch(s, p, j, l, b).(ca := s.ca[s.watches[p][j].cref := c2]))
  {
    var cr, q := s.watches[p][j].cref, l.Not();
    NewWatchDistinct(s, p, cr, c2, l);
    var t := MoveWatch(s, p, j, l, b).(ca := s.ca[cr := c2]);
    forall r | r in t.watches ensures ListShape(t, r, t.watches[r]) {
      assert ListShape(s, p, s.watches[p]);
      if r == q { MoveWatchListQ(s, p, j, c2, l, b); }
      else if r == p { MoveWatchListP(s, p, j, c2, l, b); }
      else { MoveWatchOther(s, p, j, c2, l, b, r); }
    }
    forall r, k | r in t.watchesBin && 0 <= k < |t.watchesBin[r]| ensures BinaryShape(t, r, t.watchesBin[r][k]) {
      assert BinaryShape(s, r, s.watchesBin[r][k]);
    }
  }

  /** Watchers of other clauses are unaffected. */
  lemma MoveWatchKeeps(s: State, p: Lit, j: nat, c2: Clause, l: Lit, b: Lit, r: Lit, w: Watcher)
    requires p in s.watches && j < |s.watches[p]| && s.watches[p][j].cref < |s.ca|
    requires l.Not() in s.watches && l.Not() != p && WatcherShape(s, r, w) && w.cref != s.watches[p][j].cref
    ensures WatcherShape(MoveWatch(s, p, j, l, b).(ca := s.ca[s.watches[p][j].cref := c2]), r, w)
  {}

  /** The list that takes the watcher over. */
  lemma MoveWatchListQ(s: State, p: Lit, j: nat, c2: Clause, l: Lit, b: Lit)
    requires ClausesOk(s) && WatchShape(s) && p in s.watches && j < |s.watches[p]|
    requires NewWatch(s, p, s.watches[p][j].cref, c2, l) && b in c2 && b != l && l.Not() in s.watches && l.Not() != p
    ensures var t := MoveWatch(s, p, j, l, b).(ca := s.ca[s.watches[p][j].cref := c2]);
            ListShape(t, l.Not(), t.watches[l.Not()])
  {
    var cr, q := s.watches[p][j].cref, l.Not();
    NewWatchDistinct(s, p, cr, c2, l);
    var t := MoveWatch(s, p, j, l, b).(ca := s.ca[cr := c2]);
    var ws := s.watches[q];
    assert ListShape(s, p, s.watches[p]) && ListShape(s, q, ws) && l in c2;
    assert WatcherShape(t, q, Watcher(cr, b));
    forall k | 0 <= k < |ws| ensures ws[k].cref != cr && WatcherShape(t, q, ws[k]) {
      assert WatcherShape(s, q, ws[k]);
      MoveWatchKeeps(s, p, j, c2, l, b, q, ws[k]);
    }
    assert t.watches[q] == ws + [Watcher(cr, b)];
  }

  lemma MoveWatchOther(s: State, p: Lit, j: nat, c2: Clause, l: Lit, b: Lit, r: Lit)
    requires ClausesOk(s) && WatchShape(s) && p in s.watches && j < |s.watches[p]| && r in s.watches && r != p && r != l.Not()
    requires NewWatch(s, p, s.watches[p][j].cref, c2, l) && l.Not() in s.watches && l.Not() != p
    ensures var t := MoveWatch(s, p, j, l, b).(ca := s.ca[s.watches[p][j].cref := c2]);
            ListShape(t, r, t.watches[r])
  {
    var t := MoveWatch(s, p, j, l, b).(ca := s.ca[s.watches[p][j].cref := c2]);
    assert ListShape(s, r, s.watches[r]);
    forall k | 0 <= k < |s.watches[r]| ensures WatcherShape(t, r, s.watches[r][k]) {
      assert WatcherShape(s, r, s.watches[r][k]);
    }
  }

  lemma MoveWatchListP(s: State, p: Lit, j: nat, c2: Clause, l: Lit, b: Lit)
    requires p in s.watches && j < |s.watches[p]| && ListShape(s, p, s.watches[p])
    requires s.watches[p][j].cref < |s.ca| && l.Not() in s.watches && l.Not() != p
    ensures ListShape(MoveWatch(s, p, j, l, b).(ca := s.ca[s.watches[p][j].cref := c2]), p,
                      s.watches[p][..j] + s.watches[p][j + 1..])
  {
    var t := MoveWatch(s, p, j, l, b).(ca := s.ca[s.watches[p][j].cref := c2]);
    var old_, new_ := s.watches[p], s.watches[p][..j] + s.watches[p][j + 1..];
    forall k | 0 <= k < |new_| ensures WatcherShape(t, p, new_[k]) {
      assert new_[k] == if k < j then old_[k] else old_[k + 1];
      assert WatcherShape(s, p, new_[k]);
    }
  }

  lemma MoveWatchHas(s: State, p: Lit, j: nat, l: Lit, b: Lit, r: Lit, k: nat)
    requires p in s.watches && j < |s.watches[p]| && l.Not() in s.watches && l.Not() != p
    requires Has(s.watches, r, k) && (k != s.watches[p][j].cref || r != p)
    ensures Has(MoveWatch(s, p, j, l, b).watches, r, k)
  {
    var t := MoveWatch(s, p, j, l, b);
    var i :| 0 <= i < |s.watches[r]| && s.watches[r][i].cref == k;
    if r == p {
      assert t.watches[p][if i < j then i else i - 1].cref == k;
    } else {
      assert t.watches[r][i].cref == k;
    }
  }

  lemma MoveWatchAttached(s: State, p: Lit, j: nat, c2: Clause, l: Lit, b: Lit, k: nat)
    requires ClausesOk(s) && AllAttached(s) && p in s.watches && j < |s.watches[p]| && k < |s.ca|
    requires NewWatch(s, p, s.watches[p][j].cref, c2, l) && l.Not() in s.watches && l.Not() != p
    ensures var t := MoveWatch(s, p, j, l, b).(ca := s.ca[s.watches[p][j].cref := c2]);
            |t.ca[k]| >= 2 && Attached(t, k)
  {
    var cr, q := s.watches[p][j].cref, l.Not();
    NewWatchDistinct(s, p, cr, c2, l);
    var t := MoveWatch(s, p, j, l, b).(ca := s.ca[cr := c2]);
    var c := s.ca[k];
    assert Attached(s, k);
    if k == cr {
      MoveWatchHas(s, p, j, l, b, c2[0].Not(), cr);
      assert t.watches[q][|s.watches[q]|].cref == cr;
    } else if |c| > 2 {
      MoveWatchHas(s, p, j, l, b, c[0].Not(), k);
      MoveWatchHas(s, p, j, l, b, c[1].Not(), k);
    }
  }

  /** No processed list is disturbed when a watch moves to a literal that is not false. */
  lemma MoveWatchDone(s: State, p: Lit, idx: nat, j: nat, c2: Clause, l: Lit, b: Lit, i: nat)
    requires Sweep(s, p, idx, j) && j < |s.watches[p]| && i < idx
    requires NewWatch(s, p, s.watches[p][j].cref, c2, l)
    ensures l.Not() in s.watches && l.Not() != p
    ensures var t := MoveWatch(s, p, j, l, b).(ca := s.ca[s.watches[p][j].cref := c2]);
            LongDone(t, s.trail[i]) && BinaryDone(t, s.trail[i])
  {
    var cr, r := s.watches[p][j].cref, s.trail[i];
    NewWatchDistinct(s, p, cr, c2, l);
    assert l in c2;
    var t := MoveWatch(s, p, j, l, b).(ca := s.ca[cr := c2]);
    assert InLevel(s, i, Level(s.vardata, r.v));
    assert LongDone(s, r) && BinaryDone(s, r);
    assert r != p && r != l.Not();
    assert ListShape(s, r, s.watches[r]);
    forall k | 0 <= k < |s.watches[r]| ensures WatcherOk(t, r, s.watches[r][k]) {
      assert WatcherOk(s, r, s.watches[r][k]) && WatcherShape(s, r, s.watches[r][k]);
    }
  }

  lemma MoveWatchSweep(s: State, p: Lit, idx: nat, j: nat, c2: Clause, l: Lit, b: Lit)
    requires Sweep(s, p, idx, j) && j < |s.watches[p]|
    requires NewWatch(s, p, s.watches[p][j].cref, c2, l) && b in c2 && b != l
    ensures l.Not() in s.watches && l.Not() != p
    ensures Sweep(MoveWatch(s, p, j, l, b).(ca := s.ca[s.watches[p][j].cref := c2]), p, idx, j)
  {
    MoveWatchShape(s, p, j, c2, l, b);
    MoveWatchAllAttached(s, p, j, c2, l, b);
    MoveWatchTrail(s, p, j, c2, l, b);
    MoveWatchPropagated(s, p, idx, j, c2, l, b);
    MoveWatchPrefix(s, p, idx, j, c2, l, b);
  }

  lemma MoveWatchAllAttached(s: State, p: Lit, j: nat, c2: Clause, l: Lit, b: Lit)
    requires ClausesOk(s) && AllAttached(s) && p in s.watches && j < |s.watches[p]|
    requires NewWatch(s, p, s.watches[p][j].cref, c2, l) && l.Not() in s.watches && l.Not() != p
    ensures AllAttached(MoveWatch(s, p, j, l, b).(ca := s.ca[s.watches[p][j].cref := c2]))
  {
    var t := MoveWatch(s, p, j, l, b).(ca := s.ca[s.watches[p][j].cref := c2]);
    forall k | 0 <= k < |t.ca| ensures |t.ca[k]| >= 2 && Attached(t, k) {
      MoveWatchAttached(s, p, j, c2, l, b, k);
    }
  }

  lemma MoveWatchTrail(s: State, p: Lit, j: nat, c2: Clause, l: Lit, b: Lit)
    requires TrailInv(s) && p in s.watches && j < |s.watches[p]|
    requires NewWatch(s, p, s.watches[p][j].cref, c2, l) && l.Not() in s.watches && l.Not() != p
    ensures TrailInv(MoveWatch(s, p, j, l, b).(ca := s.ca[s.watches[p][j].cref := c2]))
  {
    var cr := s.watches[p][j].cref;
    PermuteKeepsTrail(s, cr, c2);
    SameTrail(s.(ca := s.ca[cr := c2]), MoveWatch(s, p, j, l, b).watches);
  }

  lemma MoveWatchPropagated(s: State, p: Lit, idx: nat, j: nat, c2: Clause, l: Lit, b: Lit)
    requires Sweep(s, p, idx, j) && j < |s.watches[p]|
    requires NewWatch(s, p, s.watches[p][j].cref, c2, l) && l.Not() in s.watches && l.Not() != p
    ensures Propagated(MoveWatch(s, p, j, l, b).(ca := s.ca[s.watches[p][j].cref := c2]), idx, |s.trailLim| + 1)
  {
    var t := MoveWatch(s, p, j, l, b).(ca := s.ca[s.watches[p][j].cref := c2]);
    forall i | 0 <= i < idx ensures LongDone(t, t.trail[i]) && BinaryDone(t, t.trail[i]) {
      MoveWatchDone(s, p, idx, j, c2, l, b, i);
    }
  }

  lemma MoveWatchPrefix(s: State, p: Lit, idx: nat, j: nat, c2: Clause, l: Lit, b: Lit)
    requires Sweep(s, p, idx, j) && j < |s.watches[p]|
    requires NewWatch(s, p, s.watches[p][j].cref, c2, l)
    requires l.Not() in s.watches && l.Not() != p
    ensures var t := MoveWatch(s, p, j, l, b).(ca := s.ca[s.watches[p][j].cref := c2]);
            p in t.watches && j <= |t.watches[p]| && BinaryDone(t, p) &&
            forall k :: 0 <= k < j ==> WatcherOk(t, p, t.watches[p][k])
  {
    var t := MoveWatch(s, p, j, l, b).(ca := s.ca[s.watches[p][j].cref := c2]);
    assert ListShape(s, p, s.watches[p]);
    forall k | 0 <= k < j ensures WatcherOk(t, p, t.watches[p][k]) {
      assert t.watches[p][k] == s.watches[p][k] && s.watches[p][k].cref != s.watches[p][j].cref;
      assert WatcherOk(s, p, s.watches[p][k]);
    }
  }

  // ------------------------------------------------------- the branches of one visit

  /** The clause with its false watch, the negation of p, at index 1. */
  function Front(c: Clause, p: Lit): Clause
    requires |c| >= 2
  {
    if c[0] == p.Not() then c[0 := c[1]][1 := p.Not()] else c
  }

  lemma FrontSame(c: Clause, p: Lit)
    requires |c| > 2 && DistinctVars(c) && (c[0] == p.Not() || c[1] == p.Not())
    ensures var d := Front(c, p);
            SameLits(c, d) && DistinctVars(d) && d[1] == p.Not() && d[0] == Other(c, p) && d[0] != p.Not()
  {
    var d := Front(c, p);
    if c[0] == p.Not() {
      assert forall i :: 0 <= i < |c| ==> c[i] == d[if i == 0 then 1 else if i == 1 then 0 else i];
      assert forall i :: 0 <= i < |c| ==> d[i] == c[if i == 0 then 1 else if i == 1 then 0 else i];
    }
  }

  lemma NotReason(s: State, cr: nat)
    requires TrailInv(s) && cr < |s.ca| && |s.ca[cr]| > 2 && Value(s.assigns, s.ca[cr][0]) != LTrue
    ensures !IsReason(s, cr)
  {
    forall i | 0 <= i < |s.trail| ensures Reason(s.vardata, s.trail[i].v) != cr {
      assert ReasonAt(s, i);
    }
  }

  lemma FrontSweep(s: State, p: Lit, idx: nat, j: nat)
    requires Sweep(s, p, idx, j) && j < |s.watches[p]|
    ensures s.watches[p][j].cref < |s.ca| && |s.ca[s.watches[p][j].cref]| > 2
    ensures WatcherShape(s, p, s.watches[p][j])
    ensures var cr := s.watches[p][j].cref; var c := Front(s.ca[cr], p);
            && SamePair(s, cr, c) && c[1] == p.Not() && c[0] == Other(s.ca[cr], p) && c[0] != p.Not()
            && Sweep(s.(ca := s.ca[cr := c]), p, idx, j) && Extends(s, s.(ca := s.ca[cr := c]))
  {
    var cr := s.watches[p][j].cref;
    assert ListShape(s, p, s.watches[p]);
    assert WatcherShape(s, p, s.watches[p][j]);
    var c, d := s.ca[cr], Front(s.ca[cr], p);
    assert ClauseShape(c, |s.vardata|);
    FrontSame(c, p);
    if c[0] == p.Not() {
      ValueNot(s.assigns, p);
      NotReason(s, cr);
    }
    SamePairSweep(s, p, idx, j, cr, d);
    PermuteKeepsTrail(s, cr, d);
  }

  /** A watcher whose blocker or other watch is true is done with. */
  lemma KeepTrue(s: State, p: Lit, idx: nat, j: nat, b: Lit)
    requires Sweep(s, p, idx, j) && j < |s.watches[p]|
    requires s.watches[p][j].cref < |s.ca| && b in s.ca[s.watches[p][j].cref] && b != p.Not()
    requires Value(s.assigns, b) == LTrue
    ensures Sweep(SetBlocker(s, p, j, b), p, idx, j + 1)
  {
    SetBlockerSweep(s, p, idx, j, b);
    var k :| 0 <= k < |s.trail| && s.trail[k] == b;
    assert InLevel(s, k, Level(s.vardata, b.v));
  }

  /** Clause c, false watch in front, gives that watch up for the literal at index k. */
  function Rewatched(c: Clause, k: nat, p: Lit): Clause
    requires 2 <= k < |c|
  {
    c[1 := c[k]][k := p.Not()]
  }

  lemma RewatchedSame(c: Clause, k: nat, p: Lit)
    requires 2 <= k < |c| && c[1] == p.Not() && DistinctVars(c)
    ensures var d := Rewatched(c, k, p);
            SameLits(c, d) && DistinctVars(d) && d[0] == c[0] && d[1] == c[k]
  {
    var d := Rewatched(c, k, p);
    assert forall i :: 0 <= i < |c| ==> c[i] == d[if i == 1 then k else if i == k then 1 else i];
    assert forall i :: 0 <= i < |c| ==> d[i] == c[if i == 1 then k else if i == k then 1 else i];
  }

  lemma RewatchedIsNew(s: State, p: Lit, idx: nat, j: nat, k: nat)
    requires Sweep(s, p, idx, j) && j < |s.watches[p]|
    requires s.watches[p][j].cref < |s.ca|
    requires var c := s.ca[s.watches[p][j].cref];
             && 2 <= k < |c| && c[1] == p.Not()
             && Value(s.assigns, c[0]) != LTrue && Value(s.assigns, c[k]) != LFalse
    ensures var cr := s.watches[p][j].cref; var c := s.ca[cr];
            && NewWatch(s, p, cr, Rewatched(c, k, p), c[k])
            && Permutes(s, cr, Rewatched(c, k, p))
            && c[0] in Rewatched(c, k, p) && c[0] != c[k]
  {
    var cr := s.watches[p][j].cref;
    var c := s.ca[cr];
    assert ClauseShape(c, |s.vardata|);
    RewatchedSame(c, k, p);
    NotReason(s, cr);
  }

  lemma SweepFacts(s: State, p: Lit, idx: nat, j: nat)
    requires Sweep(s, p, idx, j)
    ensures TrailInv(s) && ClausesOk(s) && p in s.watches && j <= |s.watches[p]|
  {}

  lemma RewatchSweep(s: State, p: Lit, idx: nat, j: nat, k: nat)
    requires Sweep(s, p, idx, j) && j < |s.watches[p]|
    requires s.watches[p][j].cref < |s.ca|
    requires var c := s.ca[s.watches[p][j].cref];
             && 2 <= k < |c| && c[1] == p.Not()
             && Value(s.assigns, c[0]) != LTrue && Value(s.assigns, c[k]) != LFalse
    ensures var cr := s.watches[p][j].cref; var c := s.ca[cr]; var l := c[k];
            && l.Not() in s.watches && l.Not() != p
            && var t := MoveWatch(s, p, j, l, c[0]).(ca := s.ca[cr := Rewatched(c, k, p)]);
               Sweep(t, p, idx, j) && Extends(s, t)
  {
    var cr := s.watches[p][j].cref;
    var c := s.ca[cr];
    var d := Rewatched(c, k, p);
    SweepFacts(s, p, idx, j);
    RewatchedIsNew(s, p, idx, j, k);
    hide *;
    MoveWatchSweep(s, p, idx, j, d, c[k], c[0]);
    PermuteKeepsTrail(s, cr, d);
    ExtendsWatches(s, s.(ca := s.ca[cr := d]), MoveWatch(s, p, j, c[k], c[0]).watches);
  }

  lemma ExtendsWatches(s: State, t: State, ws: map<Lit, seq<Watcher>>)
    requires Extends(s, t)
    ensures Extends(s, t.(watches := ws))
  {
    SameTrail(t, ws);
  }

  /** All literals but the first are false: the first one follows. */
  lemma UnitSweep(s: State, p: Lit, idx: nat, j: nat)
    requires Sweep(s, p, idx, j) && j < |s.watches[p]|
    requires s.watches[p][j].cref < |s.ca|
    requires var c := s.ca[s.watches[p][j].cref];
             && |c| > 2 && Value(s.assigns, c[0]) == LUndef && c[0] != p.Not()
             && forall k :: 1 <= k < |c| ==> Value(s.assigns, c[k]) == LFalse
    ensures var cr := s.watches[p][j].cref; var first := s.ca[cr][0];
            && first.v < |s.assigns| == |s.vardata|
            && var t := SetBlocker(Enqueue(s, first, cr), p, j, first);
               Sweep(t, p, idx, j + 1) && Extends(s, t)
  {
    var cr := s.watches[p][j].cref;
    var first := s.ca[cr][0];
    UnitFirst(s, p, idx, j);
    hide Sweep, Extends, UnitFor;
    SweepEnqueue(s, p, idx, j, first, cr);
    EnqueueExtends(s, first, cr);
    KeepTrue(Enqueue(s, first, cr), p, idx, j, first);
    SameTrail(Enqueue(s, first, cr), SetBlocker(Enqueue(s, first, cr), p, j, first).watches);
    ExtendsWatches(s, Enqueue(s, first, cr), SetBlocker(Enqueue(s, first, cr), p, j, first).watches);
  }

  lemma UnitFirst(s: State, p: Lit, idx: nat, j: nat)
    requires Sweep(s, p, idx, j) && j < |s.watches[p]| && s.watches[p][j].cref < |s.ca|
    requires var c := s.ca[s.watches[p][j].cref];
             && |c| > 2 && Value(s.assigns, c[0]) == LUndef && forall k :: 1 <= k < |c| ==> Value(s.assigns, c[k]) == LFalse
    ensures var cr := s.watches[p][j].cref; var first := s.ca[cr][0];
            && first.v < |s.assigns| == |s.vardata| && UnitFor(s, first, cr) && first in s.ca[cr] && TrailInv(s)
            && Value(Enqueue(s, first, cr).assigns, first) == LTrue
  {
    var cr := s.watches[p][j].cref;
    var first := s.ca[cr][0];
    assert ClauseShape(s.ca[cr], |s.vardata|);
    assert first in s.ca[cr];
    EnqueueKeepsValues(s, first, cr);
  }

  // ------------------------------------------------------- the whole visit

  /** What visiting one watcher decides about it. */
  datatype Visit =
    | Keep(w: Watcher)      // the watcher stays, with this blocker
    | Moved                 // the clause now watches another literal
    | Conflict(w: Watcher)  // the watcher stays and its clause is false

  /** The first position from k on that holds a literal that is not false, or the clause size. */
  function NewWatchAt(assigns: seq<LBool>, c: Clause, k: nat): (r: nat)
    requires k <= |c|
    ensures k <= r <= |c|
    ensures forall i :: k <= i < r ==> Value(assigns, c[i]) == LFalse
    ensures r < |c| ==> Value(assigns, c[r]) != LFalse
    decreases |c| - k
  {
    if k < |c| && Value(assigns, c[k]) == LFalse then NewWatchAt(assigns, c, k + 1) else k
  }

  ghost predicate Visitable(s: State, w: Watcher) {
    && w.cref < |s.ca| && |s.ca[w.cref]| > 2
    && |s.assigns| == |s.vardata|
    && (forall l :: l in s.ca[w.cref] ==> l.v < |s.vardata|)
    && (forall l: Lit :: l.v < |s.vardata| ==> l in s.watches)
  }

  ghost function VisitResult(s: State, p: Lit, w: Watcher): Visit
    requires Visitable(s, w)
  {
    var c := Front(s.ca[w.cref], p);
    var nw := Watcher(w.cref, c[0]);
    if Value(s.assigns, w.blocker) == LTrue then Keep(w)
    else if c[0] != w.blocker && Value(s.assigns, c[0]) == LTrue then Keep(nw)
    else if NewWatchAt(s.assigns, c, 2) < |c| then Moved
    else if Value(s.assigns, c[0]) == LFalse then Conflict(nw)
    else Keep(nw)
  }

  ghost function VisitState(s: State, p: Lit, w: Watcher): State
    requires Visitable(s, w)
    requires p.Not() in s.ca[w.cref]
  {
    var cr, c := w.cref, Front(s.ca[w.cref], p);
    assert c[0] == s.ca[cr][0] || c[0] == s.ca[cr][1];
    if Value(s.assigns, w.blocker) == LTrue then s
    else
      var s1 := s.(ca := s.ca[cr := c]);
      var k := NewWatchAt(s.assigns, c, 2);
      if c[0] != w.blocker && Value(s.assigns, c[0]) == LTrue then s1
      else if k < |c| then
        var q := c[k].Not();
        assert c[k] == s.ca[cr][k];
        s.(ca := s.ca[cr := Rewatched(c, k, p)], watches := s.watches[q := s.watches[q] + [Watcher(cr, c[0])]])
      else if Value(s.assigns, c[0]) == LFalse then s1
      else Enqueue(s1, c[0], cr)
  }

  /** The list of p after the visit of its j-th watcher. */
  function ListAfter(l: seq<Watcher>, j: nat, r: Visit): seq<Watcher>
    requires j < |l|
  {
    match r
    case Keep(w) => l[j := w]
    case Moved => l[..j] + l[j + 1..]
    case Conflict(w) => l[j := w]
  }

  ghost function WithList(s: State, p: Lit, l: seq<Watcher>): State {
    s.(watches := s.watches[p := l])
  }

  lemma SweepVisitable(s: State, p: Lit, idx: nat, j: nat)
    requires Sweep(s, p, idx, j) && j < |s.watches[p]|
    ensures Visitable(s, s.watches[p][j]) && WatcherShape(s, p, s.watches[p][j])
    ensures p.Not() in s.ca[s.watches[p][j].cref]
  {
    assert ListShape(s, p, s.watches[p]);
    assert WatcherShape(s, p, s.watches[p][j]);
    assert ClauseShape(s.ca[s.watches[p][j].cref], |s.vardata|);
  }

  ghost predicate FalseClause(t: State, cr: nat, p: Lit) {
    cr < |t.ca| && p.Not() in t.ca[cr] && forall x :: x in t.ca[cr] ==> Value(t.assigns, x) == LFalse
  }

  /** Result r and state t of a visit to the j-th watcher are in order. */
  ghost predicate GoodVisit(s: State, p: Lit, idx: nat, j: nat, r: Visit, t: State) {
    && Extends(s, t)
    && Sweep(t, p, idx, if r.Keep? then j + 1 else j)
    && (r.Conflict? ==> FalseClause(t, r.w.cref, p))
  }

  ghost predicate VisitOk(s: State, p: Lit, idx: nat, j: nat) {
    && p in s.watches && j < |s.watches[p]|
    && var w := s.watches[p][j];
    && Visitable(s, w) && p.Not() in s.ca[w.cref]
    && var r := VisitResult(s, p, w);
       GoodVisit(s, p, idx, j, r, WithList(VisitState(s, p, w), p, ListAfter(s.watches[p], j, r)))
  }

  /** One visit advances the sweep of the list, or finds a false clause. */
  lemma VisitSweep(s: State, p: Lit, idx: nat, j: nat)
    requires Sweep(s, p, idx, j) && j < |s.watches[p]|
    ensures VisitOk(s, p, idx, j)
  {
    SweepVisitable(s, p, idx, j);
    var w := s.watches[p][j];
    if Value(s.assigns, w.blocker) == LTrue {
      VisitBlocked(s, p, idx, j);
    } else {
      FrontSweep(s, p, idx, j);
      var s1 := s.(ca := s.ca[w.cref := Front(s.ca[w.cref], p)]);
      VisitFrontSweep(s1, p, idx, j);
      VisitViaFront(s, s1, p, idx, j);
    }
  }

  lemma VisitBlocked(s: State, p: Lit, idx: nat, j: nat)
    requires Sweep(s, p, idx, j) && j < |s.watches[p]|
    requires Value(s.assigns, s.watches[p][j].blocker) == LTrue
    ensures VisitOk(s, p, idx, j)
  {
    SweepVisitable(s, p, idx, j);
    var l, w := s.watches[p], s.watches[p][j];
    hide Sweep, Extends;
    KeepTrue(s, p, idx, j, w.blocker);
    assert SetBlocker(s, p, j, w.blocker) == WithList(s, p, l[j := w]);
    ExtendsItself(s);
    ExtendsWatches(s, s, s.watches[p := l[j := w]]);
  }

  lemma VisitViaFront(s: State, s1: State, p: Lit, idx: nat, j: nat)
    requires p in s.watches && j < |s.watches[p]|
    requires var w := s.watches[p][j];
             && Visitable(s, w) && p.Not() in s.ca[w.cref] && Value(s.assigns, w.blocker) != LTrue
             && s1 == s.(ca := s.ca[w.cref := Front(s.ca[w.cref], p)])
             && s1.ca[w.cref][0] != p.Not()
    requires Extends(s, s1) && VisitOk(s1, p, idx, j)
    ensures VisitOk(s, p, idx, j)
  {
    hide Sweep, Extends, FalseClause, Propagated, TrailInv, WatchShape, AllAttached;
    var w := s.watches[p][j];
    assert Front(s1.ca[w.cref], p) == s1.ca[w.cref];
    assert s1.ca[w.cref := s1.ca[w.cref]] == s1.ca;
    var r := VisitResult(s1, p, w);
    assert VisitResult(s, p, w) == r;
    var k := NewWatchAt(s.assigns, s1.ca[w.cref], 2);
    if k < |s1.ca[w.cref]| {
      var d := Rewatched(s1.ca[w.cref], k, p);
      assert s1.ca[w.cref := d] == s.ca[w.cref := d];
    }
    assert VisitState(s1, p, w) == VisitState(s, p, w);
    ExtendsTransitive(s, s1, WithList(VisitState(s, p, w), p, ListAfter(s.watches[p], j, r)));
  }

  lemma ExtendsItself(s: State)
    ensures Extends(s, s)
  {}

  /** The visit of a clause whose false watch already sits at index 1. */
  lemma VisitFrontSweep(s: State, p: Lit, idx: nat, j: nat)
    requires Sweep(s, p, idx, j) && j < |s.watches[p]|
    requires FrontWatcher(s, p, s.watches[p][j])
    ensures VisitOk(s, p, idx, j)
  {
    SweepVisitable(s, p, idx, j);
    var l, w := s.watches[p], s.watches[p][j];
    var c, cr := s.ca[w.cref], w.cref;
    var k := NewWatchAt(s.assigns, c, 2);
    assert s.ca[cr := c] == s.ca;
    if c[0] != w.blocker && Value(s.assigns, c[0]) == LTrue {
      VisitTrueFirst(s, p, idx, j);
    } else if k < |c| {
      VisitMoves(s, p, idx, j);
    } else if Value(s.assigns, c[0]) == LFalse {
      VisitConflict(s, p, idx, j);
    } else {
      VisitUnit(s, p, idx, j);
    }
  }

  ghost predicate FrontWatcher(s: State, p: Lit, w: Watcher) {
    && w.cref < |s.ca| && |s.ca[w.cref]| > 2 && s.ca[w.cref][1] == p.Not() && s.ca[w.cref][0] != p.Not()
    && Value(s.assigns, w.blocker) != LTrue
  }

  lemma VisitTrueFirst(s: State, p: Lit, idx: nat, j: nat)
    requires Sweep(s, p, idx, j) && j < |s.watches[p]| && FrontWatcher(s, p, s.watches[p][j])
    requires var c := s.ca[s.watches[p][j].cref]; c[0] != s.watches[p][j].blocker && Value(s.assigns, c[0]) == LTrue
    ensures VisitOk(s, p, idx, j)
  {
    SweepVisitable(s, p, idx, j);
    var w := s.watches[p][j];
    var c := s.ca[w.cref];
    assert s.ca[w.cref := c] == s.ca;
    hide Sweep, Extends;
    KeepTrue(s, p, idx, j, c[0]);
    ExtendsItself(s);
    ExtendsWatches(s, s, SetBlocker(s, p, j, c[0]).watches);
  }

  lemma VisitMoves(s: State, p: Lit, idx: nat, j: nat)
    requires Sweep(s, p, idx, j) && j < |s.watches[p]| && FrontWatcher(s, p, s.watches[p][j])
    requires var c := s.ca[s.watches[p][j].cref];
             && !(c[0] != s.watches[p][j].blocker && Value(s.assigns, c[0]) == LTrue)
             && NewWatchAt(s.assigns, c, 2) < |c|
    ensures VisitOk(s, p, idx, j)
  {
    hide Sweep, Extends, TrailInv, WatchShape;
    SweepVisitable(s, p, idx, j);
    var l, w := s.watches[p], s.watches[p][j];
    var c, cr := s.ca[w.cref], w.cref;
    var k := NewWatchAt(s.assigns, c, 2);
    RewatchSweep(s, p, idx, j, k);
    MovesState(s, p, j);
  }

  lemma MovesState(s: State, p: Lit, j: nat)
    requires p in s.watches && j < |s.watches[p]| && Visitable(s, s.watches[p][j])
    requires FrontWatcher(s, p, s.watches[p][j]) && p.Not() in s.ca[s.watches[p][j].cref]
    requires var c := s.ca[s.watches[p][j].cref];
             && !(c[0] != s.watches[p][j].blocker && Value(s.assigns, c[0]) == LTrue)
             && NewWatchAt(s.assigns, c, 2) < |c|
             && c[NewWatchAt(s.assigns, c, 2)].Not() in s.watches && c[NewWatchAt(s.assigns, c, 2)].Not() != p
    ensures var l, w := s.watches[p], s.watches[p][j]; var c := s.ca[w.cref]; var k := NewWatchAt(s.assigns, c, 2);
            WithList(VisitState(s, p, w), p, l[..j] + l[j + 1..])
            == MoveWatch(s, p, j, c[k], c[0]).(ca := s.ca[w.cref := Rewatched(c, k, p)])
  {
    var l, w := s.watches[p], s.watches[p][j];
    var c := s.ca[w.cref];
    var q := c[NewWatchAt(s.assigns, c, 2)].Not();
    var lq := s.watches[q] + [Watcher(w.cref, c[0])];
    assert s.watches[q := lq][p := l[..j] + l[j + 1..]] == s.watches[p := l[..j] + l[j + 1..]][q := lq];
  }

  lemma VisitConflict(s: State, p: Lit, idx: nat, j: nat)
    requires Sweep(s, p, idx, j) && j < |s.watches[p]| && FrontWatcher(s, p, s.watches[p][j])
    requires var c := s.ca[s.watches[p][j].cref];
             Value(s.assigns, c[0]) == LFalse && NewWatchAt(s.assigns, c, 2) == |c|
    ensures VisitOk(s, p, idx, j)
  {
    SweepVisitable(s, p, idx, j);
    var w := s.watches[p][j];
    var c := s.ca[w.cref];
    assert s.ca[w.cref := c] == s.ca;
    UnitFront(s, p, idx, j);
    hide Sweep, Extends;
    SetBlockerSweep(s, p, idx, j, c[0]);
    ExtendsItself(s);
    ExtendsWatches(s, s, SetBlocker(s, p, j, c[0]).watches);
  }

  lemma VisitUnit(s: State, p: Lit, idx: nat, j: nat)
    requires Sweep(s, p, idx, j) && j < |s.watches[p]| && FrontWatcher(s, p, s.watches[p][j])
    requires var c := s.ca[s.watches[p][j].cref];
             Value(s.assigns, c[0]) == LUndef && NewWatchAt(s.assigns, c, 2) == |c|
    ensures VisitOk(s, p, idx, j)
  {
    SweepVisitable(s, p, idx, j);
    var w := s.watches[p][j];
    var c := s.ca[w.cref];
    assert s.ca[w.cref := c] == s.ca;
    UnitFront(s, p, idx, j);
    hide Sweep, Extends;
    UnitSweep(s, p, idx, j);
  }

  lemma UnitFront(s: State, p: Lit, idx: nat, j: nat)
    requires Sweep(s, p, idx, j) && j < |s.watches[p]| && s.watches[p][j].cref < |s.ca|
    requires var c := s.ca[s.watches[p][j].cref];
             |c| > 2 && c[1] == p.Not() && NewWatchAt(s.assigns, c, 2) == |c|
    ensures var c := s.ca[s.watches[p][j].cref];
            forall k :: 1 <= k < |c| ==> Value(s.assigns, c[k]) == LFalse
  {
    assert Value(s.assigns, p) == LTrue;
    ValueNot(s.assigns, p);
  }

  /** The list of p is only read when a watcher of p is visited, never written. */
  lemma VisitCommutes(s: State, p: Lit, w: Watcher, l: seq<Watcher>, l2: seq<Watcher>)
    requires p in s.watches && Visitable(s, w) && p.Not() in s.ca[w.cref] && Value(s.assigns, p) == LTrue
    ensures Visitable(WithList(s, p, l), w)
    ensures VisitResult(WithList(s, p, l), p, w) == VisitResult(s, p, w)
    ensures WithList(VisitState(WithList(s, p, l), p, w), p, l2) == WithList(VisitState(s, p, w), p, l2)
    ensures p in VisitState(s, p, w).watches && VisitState(s, p, w).watches[p] == s.watches[p]
  {
    var c := Front(s.ca[w.cref], p);
    var k := NewWatchAt(s.assigns, c, 2);
    ValueNot(s.assigns, p);
    if k < |c| {
      var q := c[k].Not();
      assert q != p;
      var lq := s.watches[q] + [Watcher(w.cref, c[0])];
      assert s.watches[p := l][q := lq][p := l2] == s.watches[q := lq][p := l2];
    }
    assert s.watches[p := l][p := l2] == s.watches[p := l2];
  }

  lemma ExtendsIgnoresWatches(s: State, t: State, a: map<Lit, seq<Watcher>>, b: map<Lit, seq<Watcher>>)
    requires Extends(s.(watches := a), t.(watches := b))
    ensures Extends(s, t)
  {
    SameTrail(s, a);
    SameTrail(t, b);
    var s2, t2 := s.(watches := a), t.(watches := b);
    assert forall i :: 0 <= i < |s.trail| ==> (Kept(s2, t2, s.trail[i].v) ==> Kept(s, t, s.trail[i].v));
  }

  lemma AfterVisitList(ws: seq<Watcher>, j: nat, i: nat, r: Visit)
    requires j <= i < |ws|
    ensures ListAfter(ws[..j] + ws[i..], j, r) == AfterVisit(ws, j, i + 1, r)
  {
    var l := ws[..j] + ws[i..];
    assert l[..j] == ws[..j] && l[j + 1..] == ws[i + 1..];
  }

  ghost predicate CompactionOk(s: State, p: Lit, idx: nat, j: nat, i: nat) {
    && p in s.watches && i < |s.watches[p]|
    && var w := s.watches[p][i];
    && Visitable(s, w) && p.Not() in s.ca[w.cref]
    && var t := VisitState(s, p, w);
    && p in t.watches && t.watches[p] == s.watches[p]
    && Extends(s, t)
    && Compacted(t, p, idx, j, i + 1, VisitResult(s, p, w))
  }

  /** One visit inside the in-place compaction of the list of p: ws[..j] is kept, ws[i..] is to come. */
  lemma CompactionStep(s: State, p: Lit, idx: nat, j: nat, i: nat)
    requires p in s.watches && j <= i < |s.watches[p]|
    requires Sweep(WithList(s, p, s.watches[p][..j] + s.watches[p][i..]), p, idx, j)
    ensures CompactionOk(s, p, idx, j, i)
  {
    var l, w := s.watches[p][..j] + s.watches[p][i..], s.watches[p][i];
    var g := WithList(s, p, l);
    assert l[j] == w;
    VisitSweep(g, p, idx, j);
    CompactionPre(s, p, idx, j, i);
    AfterVisitList(s.watches[p], j, i, VisitResult(s, p, w));
    CompactionEnd(s, p, idx, j, i, l);
  }

  lemma CompactionEnd(s: State, p: Lit, idx: nat, j: nat, i: nat, l: seq<Watcher>)
    requires p in s.watches && j <= i < |s.watches[p]| && j < |l| && l[j] == s.watches[p][i]
    requires Visitable(s, s.watches[p][i]) && p.Not() in s.ca[s.watches[p][i].cref] && Value(s.assigns, p) == LTrue
    requires ListAfter(l, j, VisitResult(s, p, l[j])) == AfterVisit(s.watches[p], j, i + 1, VisitResult(s, p, l[j]))
    requires VisitOk(WithList(s, p, l), p, idx, j)
    ensures CompactionOk(s, p, idx, j, i)
  {
    hide Sweep, Extends, Visitable, VisitResult, VisitState, AfterVisit, ListAfter;
    var w := l[j];
    var r := VisitResult(s, p, w);
    VisitCommutes(s, p, w, l, ListAfter(l, j, r));
    var t := VisitState(s, p, w);
    ExtendsIgnoresWatches(s, t, WithList(s, p, l).watches, t.watches[p := ListAfter(l, j, r)]);
  }

  lemma CompactionPre(s: State, p: Lit, idx: nat, j: nat, i: nat)
    requires p in s.watches && j <= i < |s.watches[p]|
    requires Sweep(WithList(s, p, s.watches[p][..j] + s.watches[p][i..]), p, idx, j)
    ensures Visitable(s, s.watches[p][i]) && p.Not() in s.ca[s.watches[p][i].cref] && Value(s.assigns, p) == LTrue
  {
    var g := WithList(s, p, s.watches[p][..j] + s.watches[p][i..]);
    assert g.watches[p][j] == s.watches[p][i];
    SweepVisitable(g, p, idx, j);
    forall l: Lit | l.v < |s.vardata| ensures l in s.watches { assert l in g.watches; }
  }

  /** The vector after a visit, seen as kept part followed by watchers to come. */
  function AfterVisit(ws: seq<Watcher>, j: nat, i: nat, r: Visit): seq<Watcher>
    requires j <= i <= |ws|
  {
    match r
    case Keep(w) => ws[..j] + [w] + ws[i..]
    case Moved => ws[..j] + ws[i..]
    case Conflict(w) => ws[..j] + [w] + ws[i..]
  }

  ghost predicate Compacted(t: State, p: Lit, idx: nat, j: nat, i: nat, r: Visit) {
    && p in t.watches && j < i <= |t.watches[p]|
    && Sweep(WithList(t, p, AfterVisit(t.watches[p], j, i, r)), p, idx, if r.Keep? then j + 1 else j)
    && (r.Conflict? ==> FalseClause(t, r.w.cref, p))
  }

  // ------------------------------------------------------- before and after a sweep

  /** The next literal of the queue: everything before it is propagated. */
  ghost predicate Dequeued(s: State, p: Lit, idx: nat) {
    && TrailInv(s) && WatchShape(s) && AllAttached(s)
    && idx < |s.trail| && s.trail[idx] == p && Level(s.vardata, p.v) == |s.trailLim|
    && Propagated(s, idx, |s.trailLim| + 1)
  }

  lemma DequeueOk(s: State)
    requires SolverInv(s, |s.trailLim| + 1) && s.qhead < |s.trail|
    ensures Dequeued(s.(qhead := s.qhead + 1), s.trail[s.qhead], s.qhead)
  {
    var t := s.(qhead := s.qhead + 1);
    assert InLevel(s, s.qhead, Level(s.vardata, s.trail[s.qhead].v));
    SameButQueue(s, s.qhead + 1);
  }

  lemma SameButQueue(s: State, q: nat)
    requires TrailInv(s) && s.qhead <= q <= |s.trail|
    ensures TrailInv(s.(qhead := q))
    ensures WatchShape(s) ==> WatchShape(s.(qhead := q))
    ensures AllAttached(s) ==> AllAttached(s.(qhead := q))
    ensures forall k, lb :: Propagated(s, k, lb) ==> Propagated(s.(qhead := q), k, lb)
    ensures forall m :: Models(s, m) <==> Models(s.(qhead := q), m)
  {
    var t := s.(qhead := q);
    assert forall i :: 0 <= i < |s.trail| ==> (ReasonAt(s, i) <==> ReasonAt(t, i));
    assert forall i :: 0 <= i < |s.trail| ==> (InLevel(s, i, Level(s.vardata, s.trail[i].v)) <==> InLevel(t, i, Level(s.vardata, s.trail[i].v)));
    forall p | p in s.watches ensures ListShape(s, p, s.watches[p]) <==> ListShape(t, p, s.watches[p]) {
      assert forall k :: 0 <= k < |s.watches[p]| ==> (WatcherShape(s, p, s.watches[p][k]) <==> WatcherShape(t, p, s.watches[p][k]));
    }
    assert forall p, k :: p in s.watchesBin && 0 <= k < |s.watchesBin[p]| ==>
      (BinaryShape(s, p, s.watchesBin[p][k]) <==> BinaryShape(t, p, s.watchesBin[p][k]));
    assert forall cr :: 0 <= cr < |s.ca| && |s.ca[cr]| >= 2 ==> (Attached(s, cr) <==> Attached(t, cr));
    forall i | 0 <= i < |s.trail|
      ensures (LongDone(s, s.trail[i]) <==> LongDone(t, s.trail[i])) && (BinaryDone(s, s.trail[i]) <==> BinaryDone(t, s.trail[i]))
    {
      assert s.trail[i] in s.watches ==> forall k :: 0 <= k < |s.watches[s.trail[i]]| ==>
        (WatcherOk(s, s.trail[i], s.watches[s.trail[i]][k]) <==> WatcherOk(t, s.trail[i], s.watches[s.trail[i]][k]));
    }
  }

  /** The state after the queue is swept without conflict. */
  lemma SweepDone(s: State, p: Lit, idx: nat)
    requires p in s.watches && Sweep(s, p, idx, |s.watches[p]|) && s.qhead == idx + 1
    ensures SolverInv(s, |s.trailLim| + 1)
  {
    assert LongDone(s, p) && BinaryDone(s, p);
    hide TrailInv, WatchShape, AllAttached, LongDone, BinaryDone, WatcherOk;
  }

  /** After a conflict everything below the current level is in order, whatever the queue held. */
  lemma ConflictInv(s: State, p: Lit, idx: nat, q: nat)
    requires Dequeued(s, p, idx) && s.qhead <= q <= |s.trail|
    ensures SolverInv(s.(qhead := q), |s.trailLim|)
  {
    SameButQueue(s, q);
    forall i | idx <= i < |s.trail| ensures Level(s.vardata, s.trail[i].v) >= |s.trailLim| {
      LevelsMonotone(s, idx, i);
    }
  }

  // ------------------------------------------------------- binary clauses

  ghost predicate BinarySwept(s: State, p: Lit, idx: nat, k: nat) {
    && Dequeued(s, p, idx)
    && p in s.watchesBin && k <= |s.watchesBin[p]|
    && forall i :: 0 <= i < k ==> TrueBy(s, s.watchesBin[p][i].blocker, |s.trailLim|)
  }

  /** The two literals of a watched binary clause. */
  lemma BinaryLiterals(s: State, p: Lit, w: Watcher)
    requires BinaryShape(s, p, w)
    ensures w.cref < |s.ca| && forall l :: l in s.ca[w.cref] ==> l == p.Not() || l == w.blocker
  {
    var c := s.ca[w.cref];
    forall l | l in c ensures l == p.Not() || l == w.blocker {
      var i, j, h :| 0 <= i < |c| && 0 <= j < |c| && 0 <= h < |c| && c[i] == l && c[j] == p.Not() && c[h] == w.blocker;
    }
  }

  lemma BinaryWatcherFacts(s: State, p: Lit, idx: nat, k: nat)
    requires BinarySwept(s, p, idx, k) && k < |s.watchesBin[p]|
    ensures var w := s.watchesBin[p][k];
            && w.cref < |s.ca| && w.blocker.v < |s.vardata| == |s.assigns|
            && (Value(s.assigns, w.blocker) == LFalse ==> FalseClause(s, w.cref, p))
            && (Value(s.assigns, w.blocker) == LUndef ==> UnitFor(s, w.blocker, w.cref))
  {
    var w := s.watchesBin[p][k];
    assert BinaryShape(s, p, w);
    var c := s.ca[w.cref];
    assert ClauseShape(c, |s.vardata|);
    ValueNot(s.assigns, p);
    BinaryLiterals(s, p, w);
  }

  lemma BinaryTrue(s: State, p: Lit, idx: nat, k: nat)
    requires BinarySwept(s, p, idx, k) && k < |s.watchesBin[p]|
    requires Value(s.assigns, s.watchesBin[p][k].blocker) == LTrue
    ensures BinarySwept(s, p, idx, k + 1)
  {
    var l := s.watchesBin[p][k].blocker;
    var i :| 0 <= i < |s.trail| && s.trail[i] == l;
    assert InLevel(s, i, Level(s.vardata, l.v));
  }

  lemma BinaryEnqueue(s: State, p: Lit, idx: nat, k: nat)
    requires BinarySwept(s, p, idx, k) && k < |s.watchesBin[p]|
    requires s.watchesBin[p][k].blocker.v < |s.vardata| == |s.assigns|
    requires Value(s.assigns, s.watchesBin[p][k].blocker) == LUndef
    requires UnitFor(s, s.watchesBin[p][k].blocker, s.watchesBin[p][k].cref)
    ensures var w := s.watchesBin[p][k]; var t := Enqueue(s, w.blocker, w.cref);
            BinarySwept(t, p, idx, k + 1) && Extends(s, t)
  {
    var w := s.watchesBin[p][k];
    var t := Enqueue(s, w.blocker, w.cref);
    EnqueueKeepsTrail(s, w.blocker, w.cref);
    EnqueueKeepsShape(s, w.blocker, w.cref);
    EnqueueKeepsPropagated(s, w.blocker, w.cref, idx, |s.trailLim| + 1);
    EnqueueKeepsValues(s, w.blocker, w.cref);
    EnqueueExtends(s, w.blocker, w.cref);
    assert BinarySwept(t, p, idx, k);
    BinaryTrue(t, p, idx, k);
  }

  lemma BinaryDoneSweep(s: State, p: Lit, idx: nat)
    requires p in s.watchesBin && BinarySwept(s, p, idx, |s.watchesBin[p]|)
    ensures Sweep(s, p, idx, 0)
  {
    assert p in s.watches;
  }

  lemma CompactionStart(s: State, p: Lit, idx: nat)
    requires p in s.watches && Sweep(s, p, idx, 0)
    ensures WithList(s, p, s.watches[p][..0] + s.watches[p][0..]) == s
  {
    assert s.watches[p][..0] + s.watches[p][0..] == s.watches[p];
    assert s.watches[p := s.watches[p]] == s.watches;
  }

  lemma ExtendsSet(s: State, t: State, ws: map<Lit, seq<Watcher>>, q: nat)
    requires Extends(s, t)
    ensures Extends(s, t.(watches := ws, qhead := q))
  {
    SameTrail(t, ws);
    var u, v := t.(watches := ws), t.(watches := ws, qhead := q);
    assert forall m :: Models(u, m) <==> Models(v, m);
    assert forall i :: 0 <= i < |s.trail| ==> (Kept(s, t, s.trail[i].v) ==> Kept(s, v, s.trail[i].v));
  }

  /** The vector once the visited watcher has been written back at index j. */
  lemma WrittenBack(ws: seq<Watcher>, j: nat, i: nat, w: Watcher)
    requires j < i <= |ws|
    ensures ws[j := w][..j + 1] + ws[j := w][i..] == ws[..j] + [w] + ws[i..]
  {}

  lemma SweepIsDequeued(s: State, p: Lit, idx: nat, j: nat)
    requires Sweep(s, p, idx, j)
    ensures Dequeued(s, p, idx) && s.qhead <= |s.trail|
  {}

  lemma CompactionFinish(s: State, p: Lit, idx: nat, j: nat)
    requires p in s.watches && j <= |s.watches[p]|
    requires Sweep(WithList(s, p, s.watches[p][..j] + s.watches[p][|s.watches[p]|..]), p, idx, j)
    ensures Sweep(WithList(s, p, s.watches[p][..j]), p, idx, j)
  {
    assert s.watches[p][..j] + s.watches[p][|s.watches[p]|..] == s.watches[p][..j];
  }

  /** The visited watcher written back at index j: the state the loop goes on with. */
  lemma KeepWritten(t: State, p: Lit, idx: nat, j: nat, i: nat, w: Watcher)
    requires Compacted(t, p, idx, j, i, Keep(w))
    ensures var ws := t.watches[p][j := w];
            j < |t.watches[p]| && Sweep(WithList(WithList(t, p, ws), p, ws[..j + 1] + ws[i..]), p, idx, j + 1)
  {
    var ws := t.watches[p][j := w];
    WrittenBack(t.watches[p], j, i, w);
    hide Sweep;
    assert t.watches[p := ws][p := ws[..j + 1] + ws[i..]] == t.watches[p := ws[..j + 1] + ws[i..]];
  }

  lemma ConflictWritten(t: State, p: Lit, idx: nat, j: nat, i: nat, w: Watcher)
    requires Compacted(t, p, idx, j, i, Conflict(w))
    ensures var u := WithList(t, p, t.watches[p][..j] + [w] + t.watches[p][i..]);
            && w.cref < |u.ca| && FalseClause(u, w.cref, p) && FalseClause(u.(qhead := |u.trail|), w.cref, p)
            && Dequeued(u, p, idx)
  {
    var u := WithList(t, p, t.watches[p][..j] + [w] + t.watches[p][i..]);
    SweepIsDequeued(u, p, idx, j);
  }

  /** A clause of the arena that the trail falsifies, with a literal of the current level. */
  ghost predicate ConflictClause(s: State, confl: int) {
    && 0 <= confl < |s.ca|
    && (forall x :: x in s.ca[confl] ==> Value(s.assigns, x) == LFalse)
    && exists x :: x in s.ca[confl] && Level(s.vardata, x.v) == |s.trailLim|
  }

  lemma FalseClauseIsConflict(s: State, confl: nat, p: Lit, idx: nat)
    requires Dequeued(s, p, idx) && FalseClause(s, confl, p)
    ensures forall q :: ConflictClause(s.(qhead := q), confl)
  {
    forall q ensures ConflictClause(s.(qhead := q), confl) {
      assert p.Not() in s.ca[confl];
    }
  }

  lemma TrailBound(s: State)
    requires TrailValues(s)
    ensures |s.trail| <= |s.vardata|
  {
    DistinctVarsBound(s.trail, |s.vardata|);
  }

  lemma SolverInvFacts(s: State, lb: nat)
    requires SolverInv(s, lb)
    ensures TrailInv(s) && TrailValues(s) && TrailLevels(s) && s.qhead <= |s.trail| <= |s.vardata| == |s.assigns|
  {
    TrailBound(s);
  }

  lemma ConflictAfterSweep(s: State, p: Lit, idx: nat, q: nat, confl: nat)
    requires Dequeued(s.(qhead := q), p, idx) && s.qhead == |s.trail| && FalseClause(s, confl, p)
    ensures SolverInv(s, |s.trailLim|) && ConflictClause(s, confl)
  {
    ConflictInv(s.(qhead := q), p, idx, |s.trail|);
    assert s.(qhead := q).(qhead := |s.trail|) == s;
    assert p.Not() in s.ca[confl];
  }

  lemma ExtendsSizes(s: State, t: State)
    requires Extends(s, t)
    ensures |t.vardata| == |s.vardata| && t.trailLim == s.trailLim && |s.trail| <= |t.trail| && |t.ca| == |s.ca|
  {}

  // ------------------------------------------------------- the rest of the list after a conflict

  /** cur holds ws[..j0], then w, then ws[i0..i]; from i on it is still ws. */
  ghost predicate CopiedDown(cur: seq<Watcher>, ws: seq<Watcher>, j0: nat, w: Watcher, i0: nat, i: nat, j: nat) {
    && |cur| == |ws| && j0 < i0 <= i <= |ws| && j == j0 + 1 + (i - i0)
    && cur[..j] == ws[..j0] + [w] + ws[i0..i] && cur[i..] == ws[i..]
  }

  lemma CopyStart(ws: seq<Watcher>, j0: nat, w: Watcher, i0: nat)
    requires j0 < i0 <= |ws|
    ensures CopiedDown(ws[j0 := w], ws, j0, w, i0, i0, j0 + 1)
  {}

  lemma CopyStep(cur: seq<Watcher>, ws: seq<Watcher>, j0: nat, w: Watcher, i0: nat, i: nat, j: nat)
    requires CopiedDown(cur, ws, j0, w, i0, i, j) && i < |ws|
    ensures CopiedDown(cur[j := cur[i]], ws, j0, w, i0, i + 1, j + 1)
  {
    var next := cur[j := cur[i]];
    assert cur[i] == cur[i..][0] == ws[i];
    assert next[..j + 1] == cur[..j] + [ws[i]] && ws[i0..i + 1] == ws[i0..i] + [ws[i]];
    assert next[i + 1..] == cur[i..][1..] && ws[i + 1..] == ws[i..][1..];
  }

  lemma CopyEnd(cur: seq<Watcher>, ws: seq<Watcher>, j0: nat, w: Watcher, i0: nat, j: nat)
    requires CopiedDown(cur, ws, j0, w, i0, |ws|, j)
    ensures j <= |cur| && cur[..j] == ws[..j0] + [w] + ws[i0..]
  {
    assert ws[i0..|ws|] == ws[i0..];
  }
}
