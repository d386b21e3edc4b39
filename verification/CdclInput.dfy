/** Building the clause database at level 0: new variables, and clauses cleaned before they are stored. */
module CdclInput {
  import opened Sat
  import opened CdclState
  import opened CdclWatches
  import opened CdclPropagate
  import opened CdclAnalyze
  import opened CdclSearch

  // ------------------------------------------------------- cleaning a clause

  /** Position of a literal in the solver's literal order. */
  function Index(l: Lit): nat { 2 * l.v + (if l.neg then 1 else 0) }

  ghost predicate SortedLits(c: Clause) {
    forall i, j :: 0 <= i < j < |c| ==> Index(c[i]) <= Index(c[j])
  }

  /** Insertion sort: the library's sort on literals. */
  method Sort(c: Clause) returns (r: Clause)
    ensures SortedLits(r) && forall l :: l in r <==> l in c
  {
    r := [];
    for i := 0 to |c|
      invariant SortedLits(r) && forall l :: l in r <==> l in c[..i]
    {
      var k := 0;
      while k < |r| && Index(r[k]) <= Index(c[i])
        invariant 0 <= k <= |r| && forall h :: 0 <= h < k ==> Index(r[h]) <= Index(c[i])
      {
        k := k + 1;
      }
      assert c[..i + 1] == c[..i] + [c[i]];
      assert r == r[..k] + r[k..];
      r := r[..k] + [c[i]] + r[k..];
    }
    assert c[..|c|] == c;
  }

  /** The literals of a clause that are still open, or the news that the clause holds anyway. */
  datatype Cleaned = Satisfied | Open(c: Clause)

  /** What cleaning has established for the first i literals of the sorted clause. */
  ghost predicate Cleaning(assigns: seq<LBool>, ps: Clause, out: Clause, i: nat) {
    && i <= |ps|
    && (forall k :: 0 <= k < |out| ==> out[k] in ps[..i] && Value(assigns, out[k]) == LUndef)
    && (forall j, k :: 0 <= j < k < |out| ==> out[j].v < out[k].v)
    && (forall k :: 0 <= k < i ==> Value(assigns, ps[k]) == LFalse || ps[k] in out)
  }

  /** Drops false and repeated literals; finds true literals and complementary pairs. */
  method Clean(assigns: seq<LBool>, ps: Clause) returns (r: Cleaned)
    requires SortedLits(ps)
    ensures r.Satisfied? ==>
              (exists l :: l in ps && Value(assigns, l) == LTrue) || (exists l :: l in ps && l.Not() in ps)
    ensures r.Open? ==> Cleaning(assigns, ps, r.c, |ps|)
  {
    var out: Clause := [];
    for i := 0 to |ps|
      invariant Cleaning(assigns, ps, out, i)
    {
      var q := ps[i];
      if Value(assigns, q) == LTrue || (|out| > 0 && q == out[|out| - 1].Not()) {
        assert |out| > 0 ==> out[|out| - 1] in ps[..i];
        return Satisfied;
      } else if Value(assigns, q) != LFalse && (|out| == 0 || q != out[|out| - 1]) {
        CleaningKeep(assigns, ps, out, i);
        out := out + [q];
      } else {
        CleaningSkip(assigns, ps, out, i);
      }
    }
    return Open(out);
  }

  lemma CleaningSkip(assigns: seq<LBool>, ps: Clause, out: Clause, i: nat)
    requires Cleaning(assigns, ps, out, i) && i < |ps|
    requires Value(assigns, ps[i]) == LFalse || ps[i] in out
    ensures Cleaning(assigns, ps, out, i + 1)
  {
    assert ps[..i + 1] == ps[..i] + [ps[i]];
    forall k | 0 <= k < |out| ensures out[k] in ps[..i + 1] { assert out[k] in ps[..i]; }
  }

  lemma CleaningKeep(assigns: seq<LBool>, ps: Clause, out: Clause, i: nat)
    requires SortedLits(ps) && Cleaning(assigns, ps, out, i) && i < |ps| && Value(assigns, ps[i]) == LUndef
    requires |out| > 0 ==> ps[i] != out[|out| - 1] && ps[i] != out[|out| - 1].Not()
    ensures Cleaning(assigns, ps, out + [ps[i]], i + 1)
  {
    var o2 := out + [ps[i]];
    assert ps[..i + 1] == ps[..i] + [ps[i]];
    if |out| > 0 { NextVar(ps, out[|out| - 1], i); }
    forall k | 0 <= k < |o2| ensures o2[k] in ps[..i + 1] && Value(assigns, o2[k]) == LUndef {
      if k < |out| { assert o2[k] == out[k] && out[k] in ps[..i]; }
    }
    forall k | 0 <= k < i + 1 ensures Value(assigns, ps[k]) == LFalse || ps[k] in o2 {
      assert o2[|out|] == ps[i];
    }
    forall j, k | 0 <= j < k < |o2| ensures o2[j].v < o2[k].v {
      if k == |out| && j < |out| - 1 { assert out[j].v < out[|out| - 1].v; }
    }
  }

  /** In sorted order, a literal after p that is neither p nor its negation has a larger variable. */
  lemma NextVar(ps: Clause, p: Lit, i: nat)
    requires SortedLits(ps) && i < |ps| && p in ps[..i] && ps[i] != p && ps[i] != p.Not()
    ensures p.v < ps[i].v
  {
    var k :| 0 <= k < i && ps[..i][k] == p;
    assert Index(ps[k]) <= Index(ps[i]);
  }

  // ------------------------------------------------------- what cleaning means

  lemma TrueAtRoot(s: State, m: Model, l: Lit)
    requires TrailInv(s) && |s.trailLim| == 0 && Models(s, m) && Value(s.assigns, l) == LTrue
    ensures LitTrue(m, l)
  {
    assert l in s.trail;
    var i :| 0 <= i < |s.trail| && s.trail[i] == l;
    PositionLevel(s, i);
  }

  /** A satisfied clause adds nothing. */
  lemma SatisfiedAddsNothing(s: State, m: Model, ps: Clause)
    requires TrailInv(s) && |s.trailLim| == 0 && Models(s, m)
    requires (exists l :: l in ps && Value(s.assigns, l) == LTrue) || (exists l :: l in ps && l.Not() in ps)
    ensures ClauseTrue(m, ps)
  {
    if l :| l in ps && Value(s.assigns, l) == LTrue {
      TrueAtRoot(s, m, l);
    } else {
      var l :| l in ps && l.Not() in ps;
      assert LitTrue(m, l) || LitTrue(m, l.Not());
    }
  }

  /** Under the level-0 facts the cleaned clause says what the given one says. */
  lemma CleanedMeansSame(s: State, m: Model, ps: Clause, out: Clause)
    requires TrailInv(s) && |s.trailLim| == 0 && Models(s, m) && Cleaning(s.assigns, ps, out, |ps|)
    ensures ClauseTrue(m, ps) <==> ClauseTrue(m, out)
  {
    assert ps[..|ps|] == ps;
    if ClauseTrue(m, ps) {
      var l :| l in ps && LitTrue(m, l);
      var k :| 0 <= k < |ps| && ps[k] == l;
      if Value(s.assigns, l) == LFalse {
        ValueNot(s.assigns, l);
        TrueAtRoot(s, m, l.Not());
      }
    }
    if ClauseTrue(m, out) {
      var l :| l in out && LitTrue(m, l);
      var k :| 0 <= k < |out| && out[k] == l;
      assert l in ps;
    }
  }

  ghost predicate Extended(c: Clause, s: State, t: State) {
    forall m :: Models(t, m) <==> Models(s, m) && ClauseTrue(m, c)
  }

  lemma RepresentsMore(f: seq<Clause>, c: Clause, s: State, t: State)
    requires Represents(f, s) && Extended(c, s, t)
    ensures Represents(f + [c], t)
  {
    forall m ensures FormulaTrue(m, f + [c]) <==> Models(t, m) {
      FormulaAppend(m, f, c);
    }
  }

  lemma FormulaAppend(m: Model, f: seq<Clause>, c: Clause)
    ensures FormulaTrue(m, f + [c]) <==> FormulaTrue(m, f) && ClauseTrue(m, c)
  {
    assert forall d :: d in f + [c] <==> d in f || d == c;
  }

  // ------------------------------------------------------- storing it

  /** The engine at rest: level 0, and exactly the models of the formula. */
  ghost predicate AtRoot(s: State, f: seq<Clause>) {
    && |s.trailLim| == 0
    && SolverInv(s, 1)
    && Represents(f, s)
  }

  /** A cleaned clause of two or more literals is watched at two open literals. */
  lemma AttachKeepsInvariant(s: State, c: Clause)
    requires SolverInv(s, |s.trailLim| + 1) && Attachable(s, c)
    requires Value(s.assigns, c[0]) != LFalse && Value(s.assigns, c[1]) != LFalse
    ensures SolverInv(AttachNew(s, c), |s.trailLim| + 1)
  {
    AttachKeepsTrail(s, c);
    AttachKeepsShape(s, c);
    AttachKeepsAttached(s, c);
    forall i | 0 <= i < s.qhead ensures LongDone(AttachNew(s, c), s.trail[i]) && BinaryDone(AttachNew(s, c), s.trail[i]) {
      AttachAt(s, c, i);
    }
  }

  lemma AttachAt(s: State, c: Clause, i: nat)
    requires SolverInv(s, |s.trailLim| + 1) && Attachable(s, c) && i < s.qhead
    requires Value(s.assigns, c[0]) != LFalse && Value(s.assigns, c[1]) != LFalse
    ensures LongDone(AttachNew(s, c), s.trail[i]) && BinaryDone(AttachNew(s, c), s.trail[i])
  {
    var t, p := AttachNew(s, c), s.trail[i];
    PositionLevel(s, i);
    assert LongDone(s, p) && BinaryDone(s, p) && ListShape(s, p, s.watches[p]);
    ValueNot(s.assigns, c[0]);
    ValueNot(s.assigns, c[1]);
    assert t.ca == s.ca + [c];
    forall k | 0 <= k < |s.watches[p]| ensures WatcherOk(t, p, s.watches[p][k]) {
      assert WatcherOk(s, p, s.watches[p][k]) && WatcherShape(s, p, s.watches[p][k]);
      LearnWatcherOk(s, t, c, p, s.watches[p][k]);
    }
  }

  lemma CleanShape(s: State, ps: Clause, out: Clause)
    requires Cleaning(s.assigns, ps, out, |ps|) && forall l :: l in ps ==> l.v < |s.vardata|
    ensures DistinctVars(out) && forall l :: l in out ==> l.v < |s.vardata| && Value(s.assigns, l) == LUndef
  {
    assert ps[..|ps|] == ps;
    forall l | l in out ensures l.v < |s.vardata| && Value(s.assigns, l) == LUndef {
      var k :| 0 <= k < |out| && out[k] == l;
    }
  }

  lemma StoreLong(s: State, f: seq<Clause>, ps: Clause, out: Clause)
    requires AtRoot(s, f) && Cleaning(s.assigns, ps, out, |ps|) && |out| >= 2
    requires forall l :: l in ps ==> l.v < |s.vardata|
    ensures Attachable(s, out) && AtRoot(AttachNew(s, out), f + [ps])
  {
    CleanShape(s, ps, out);
    CanAttach(s, out);
    assert out[0] in out && out[1] in out;
    AttachKeepsInvariant(s, out);
    AttachKeepsTrail(s, out);
    forall m ensures Models(AttachNew(s, out), m) <==> Models(s, m) && ClauseTrue(m, ps) {
      if Models(s, m) { CleanedMeansSame(s, m, ps, out); }
    }
    RepresentsMore(f, ps, s, AttachNew(s, out));
  }

  lemma StoreUnit(s: State, f: seq<Clause>, ps: Clause, out: Clause)
    requires AtRoot(s, f) && Cleaning(s.assigns, ps, out, |ps|) && |out| == 1
    requires forall l :: l in ps ==> l.v < |s.vardata|
    ensures out[0].v < |s.assigns| == |s.vardata| && Value(s.assigns, out[0]) == LUndef
    ensures AtRoot(Enqueue(s, out[0], NO_REASON), f + [ps])
  {
    CleanShape(s, ps, out);
    assert out[0] in out;
    UnitKeepsInvariant(s, out[0]);
    var t := Enqueue(s, out[0], NO_REASON);
    forall m ensures Models(t, m) <==> Models(s, m) && ClauseTrue(m, ps) {
      if Models(s, m) {
        CleanedMeansSame(s, m, ps, out);
        assert ClauseTrue(m, out) <==> LitTrue(m, out[0]);
      }
    }
    RepresentsMore(f, ps, s, t);
  }

  lemma StoreEmpty(s: State, f: seq<Clause>, ps: Clause)
    requires AtRoot(s, f) && Cleaning(s.assigns, ps, [], |ps|)
    ensures Entails(f + [ps], [])
  {
    forall m ensures !FormulaTrue(m, f + [ps]) {
      FormulaAppend(m, f, ps);
      if Models(s, m) { CleanedMeansSame(s, m, ps, []); }
      assert !ClauseTrue(m, []);
    }
  }

  lemma StoreNothing(s: State, f: seq<Clause>, ps: Clause)
    requires AtRoot(s, f)
    requires (exists l :: l in ps && Value(s.assigns, l) == LTrue) || (exists l :: l in ps && l.Not() in ps)
    ensures AtRoot(s, f + [ps])
  {
    forall m ensures Models(s, m) <==> Models(s, m) && ClauseTrue(m, ps) {
      if Models(s, m) { SatisfiedAddsNothing(s, m, ps); }
    }
    RepresentsMore(f, ps, s, s);
  }

  lemma RootExtends(s: State, t: State, f: seq<Clause>)
    requires AtRoot(s, f) && Extends(s, t) && SolverInv(t, 1)
    ensures AtRoot(t, f)
  {}

  // ------------------------------------------------------- new variables

  function AddVar(s: State): State {
    var v := |s.vardata|;
    s.(assigns := s.assigns + [LUndef], vardata := s.vardata + [VarData(NO_REASON, 0)],
       watches := s.watches[Lit(v, false) := []][Lit(v, true) := []],
       watchesBin := s.watchesBin[Lit(v, false) := []][Lit(v, true) := []])
  }

  lemma AddVarTrail(s: State)
    requires TrailInv(s)
    ensures TrailInv(AddVar(s)) && forall m :: Models(AddVar(s), m) <==> Models(s, m)
  {
    var t := AddVar(s);
    assert forall i :: 0 <= i < |s.trail| ==> t.vardata[s.trail[i].v] == s.vardata[s.trail[i].v];
    assert forall l: Lit :: Value(t.assigns, l) == Value(s.assigns, l);
    forall i | 0 <= i < |t.trail| ensures ReasonAt(t, i) && InLevel(t, i, Level(t.vardata, t.trail[i].v)) {
      assert ReasonAt(s, i) && InLevel(s, i, Level(s.vardata, s.trail[i].v));
    }
    forall cr | 0 <= cr < |t.ca| ensures ClauseShape(t.ca[cr], |t.vardata|) { assert ClauseShape(s.ca[cr], |s.vardata|); }
  }

  /** A watcher list belongs to a literal of a known variable, or is empty. */
  lemma NoStrayWatchers(s: State, p: Lit)
    requires TrailInv(s) && WatchShape(s) && p.v >= |s.vardata|
    ensures p in s.watches ==> s.watches[p] == []
    ensures p in s.watchesBin ==> s.watchesBin[p] == []
  {
    if p in s.watches && |s.watches[p]| > 0 {
      assert ListShape(s, p, s.watches[p]) && WatcherShape(s, p, s.watches[p][0]);
      WatchedVar(s, s.watches[p][0].cref, p.Not());
    }
    if p in s.watchesBin && |s.watchesBin[p]| > 0 {
      assert BinaryShape(s, p, s.watchesBin[p][0]);
      WatchedVar(s, s.watchesBin[p][0].cref, p.Not());
    }
  }

  lemma WatchedVar(s: State, cr: nat, l: Lit)
    requires TrailInv(s) && cr < |s.ca| && l in s.ca[cr]
    ensures l.v < |s.vardata|
  {
    assert ClauseShape(s.ca[cr], |s.vardata|);
  }

  lemma AddVarLists(s: State)
    requires TrailInv(s) && WatchShape(s) && AllAttached(s)
    ensures WatchShape(AddVar(s)) && AllAttached(AddVar(s))
  {
    var t := AddVar(s);
    var v := |s.vardata|;
    forall p | p in t.watches ensures ListShape(t, p, t.watches[p]) {
      if p in s.watches {
        if p.v >= v { NoStrayWatchers(s, p); }
        assert ListShape(s, p, s.watches[p]);
        forall k | 0 <= k < |t.watches[p]| ensures WatcherShape(t, p, t.watches[p][k]) {
          assert WatcherShape(s, p, s.watches[p][k]);
        }
      } else { assert p == Lit(v, false) || p == Lit(v, true); }
    }
    forall p, k | p in t.watchesBin && 0 <= k < |t.watchesBin[p]| ensures BinaryShape(t, p, t.watchesBin[p][k]) {
      assert BinaryShape(s, p, s.watchesBin[p][k]);
    }
    forall cr | 0 <= cr < |t.ca| ensures Attached(t, cr) {
      assert Attached(s, cr);
      assert s.ca[cr][0] in s.ca[cr] && s.ca[cr][1] in s.ca[cr];
      assert ClauseShape(s.ca[cr], v);
    }
  }

  lemma AddVarDone(s: State, p: Lit)
    requires LongDone(s, p) && BinaryDone(s, p) && p.v < |s.vardata| == |s.assigns|
    ensures LongDone(AddVar(s), p) && BinaryDone(AddVar(s), p)
  {
    var t := AddVar(s);
    assert forall l, lv :: TrueBy(s, l, lv) ==> TrueBy(t, l, lv);
    forall k | 0 <= k < |s.watches[p]| ensures WatcherOk(t, p, s.watches[p][k]) {
      assert WatcherOk(s, p, s.watches[p][k]);
    }
  }

  lemma AddVarRoot(s: State, f: seq<Clause>)
    requires AtRoot(s, f)
    ensures AtRoot(AddVar(s), f)
  {
    var t := AddVar(s);
    AddVarTrail(s);
    AddVarLists(s);
    forall i | 0 <= i < t.qhead ensures LongDone(t, t.trail[i]) && BinaryDone(t, t.trail[i]) {
      PositionLevel(s, i);
      AddVarDone(s, s.trail[i]);
    }
  }

  lemma EntailsSame(f: seq<Clause>, ps: Clause, ps0: Clause)
    requires Entails(f + [ps], [])
    requires forall m :: FormulaTrue(m, f + [ps]) <==> FormulaTrue(m, f + [ps0])
    ensures Entails(f + [ps0], [])
  {}

  lemma RefutedAlready(assigns: seq<LBool>, f: seq<Clause>, a: seq<Lit>)
    requires Entails(f, [])
    ensures Correct(Unsatisfiable, assigns, [], f, a) && Refuted(f, a)
  {
    EntailedConflictRefutes(f, a, []);
  }

  lemma AddVarHeap(s: State, heap: set<nat>)
    requires HeapOk(s, heap)
    ensures HeapOk(AddVar(s), heap + {|s.vardata|})
  {
    var t := AddVar(s);
    assert forall l: Lit :: Value(t.assigns, l) == Value(s.assigns, l);
  }

  lemma NoMarksMore(seen: seq<bool>)
    requires NoMarks(seen)
    ensures NoMarks(seen + [false])
  {
    forall v ensures !Seen(seen + [false], v) { assert !Seen(seen, v); }
  }

  lemma EntailsMore(f: seq<Clause>, c: Clause)
    requires Entails(f, [])
    ensures Entails(f + [c], [])
  {
    forall m ensures FormulaTrue(m, f + [c]) ==> ClauseTrue(m, []) { FormulaAppend(m, f, c); }
  }

  /** Reordering a clause does not change the formula's meaning. */
  lemma SameClause(f: seq<Clause>, ps: Clause, ps0: Clause)
    requires forall l :: l in ps <==> l in ps0
    ensures forall m :: FormulaTrue(m, f + [ps]) <==> FormulaTrue(m, f + [ps0])
  {
    forall m ensures FormulaTrue(m, f + [ps]) <==> FormulaTrue(m, f + [ps0]) {
      FormulaAppend(m, f, ps);
      FormulaAppend(m, f, ps0);
      assert ClauseTrue(m, ps) <==> ClauseTrue(m, ps0);
    }
  }

  lemma RepresentsSame(s: State, f: seq<Clause>, ps: Clause, ps0: Clause)
    requires AtRoot(s, f + [ps])
    requires forall m :: FormulaTrue(m, f + [ps]) <==> FormulaTrue(m, f + [ps0])
    ensures AtRoot(s, f + [ps0])
  {}

  lemma HeapAttach(s: State, c: Clause, heap: set<nat>)
    requires HeapOk(s, heap) && Attachable(s, c)
    ensures HeapOk(AttachNew(s, c), heap)
  {}

  lemma RootRefuted(s: State, t: State, f: seq<Clause>, confl: nat)
    requires AtRoot(s, f) && Extends(s, t) && SolverInv(t, 0) && ConflictClause(t, confl)
    ensures Entails(f, [])
  {
    assert Represents(f, t);
    ConflictAtRoot(t, f, confl);
  }

  lemma StartSearch(s: State, f: seq<Clause>, a: seq<Lit>)
    requires AtRoot(s, f) && forall l :: l in a ==> l.v < |s.vardata|
    ensures SearchInv(s, f, a)
  {
    forall i | 0 <= i < |s.trail| ensures DecisionOk(s, a, i) { PositionLevel(s, i); }
  }

  lemma EndSearch(s: State, f: seq<Clause>, a: seq<Lit>)
    requires SearchInv(s, f, a) && |s.trailLim| == 0
    ensures AtRoot(s, f)
  {}

  lemma RefutedBy(assigns: seq<LBool>, c: Clause, f: seq<Clause>, a: seq<Lit>)
    requires Correct(Unsatisfiable, assigns, c, f, a)
    ensures Refuted(f, a) && (c == [] ==> Entails(f, []))
  {
    EntailedConflictRefutes(f, a, c);
  }
}
