/** The parts of renumbering around the search: first codes, lists of roots, the new gates. */
module AigRebuild {
  import opened Aig
  import opened AigReencode
  import opened AigRenumber
  import opened Basics

  // ------------------------------------------------------- the first codes

  ghost predicate LeafIndex(a: Graph, v: nat, n: nat) {
    v <= a.maxvar < |a.kinds| && match a.kinds[v]
                                 case Undefined => false
                                 case Input(i) => i < n
                                 case Latched(i) => |a.inputs| + i < n
                                 case Gate(i) => false
  }

  /** The first n leaves have their codes. */
  ghost predicate FirstCodes(a: Graph, code: seq<nat>, n: nat) {
    && Typed(a) && Table(a, code, 2 * (n + 1))
    && (forall i :: 0 <= i < |a.inputs| && i < n ==> code[a.inputs[i]] == 2 * (i + 1))
    && (forall i :: 0 <= i < |a.latches| && |a.inputs| + i < n ==> code[a.latches[i].lit] == 2 * (|a.inputs| + i + 1))
    && (forall v: nat :: Coded(code, v) ==> LeafIndex(a, v, n))
  }

  lemma NoCodes(a: Graph, code: seq<nat>)
    requires Typed(a) && |code| == 2 * (a.maxvar + 1) && code[1] == 1
    requires forall l :: 0 <= l < |code| && l != 1 ==> code[l] == 0
    ensures FirstCodes(a, code, 0)
  {
    forall v: nat ensures !Coded(code, v) {}
  }

  lemma FirstCodeNext(a: Graph, code: seq<nat>, n: nat, lit: nat)
    requires FirstCodes(a, code, n)
    requires Fresh(a, lit, if n < |a.inputs| then Input(n) else Latched(n - |a.inputs|))
    requires n < |a.inputs| + |a.latches|
    requires lit == if n < |a.inputs| then a.inputs[n] else a.latches[n - |a.inputs|].lit
    ensures lit + 1 < |code| && FirstCodes(a, NewCode(code, Var(lit), 2 * (n + 1)), n + 1)
  {
    hide Typed, Table, NewCode, Coded;
    var v := Var(lit);
    FirstUncoded(a, code, n, lit);
    FirstLits(a, code, n);
    TableNewCode(a, code, 2 * (n + 1), v);
    FirstSize(a, code, n);
    var c := NewCode(code, v, 2 * (n + 1));
    NewCodeAt(code, v, 2 * (n + 1), v);
    forall i | 0 <= i < |a.inputs| && i < n ensures c[a.inputs[i]] == 2 * (i + 1) {
      NewCodeAt(code, v, 2 * (n + 1), Var(a.inputs[i]));
      assert a.inputs[i] == 2 * Var(a.inputs[i]);
    }
    forall i | 0 <= i < |a.latches| && |a.inputs| + i < n ensures c[a.latches[i].lit] == 2 * (|a.inputs| + i + 1) {
      NewCodeAt(code, v, 2 * (n + 1), Var(a.latches[i].lit));
      assert a.latches[i].lit == 2 * Var(a.latches[i].lit);
    }
    forall u: nat | Coded(c, u) ensures LeafIndex(a, u, n + 1) {
      CodedAfter(code, v, 2 * (n + 1), u);
      assert u == v || LeafIndex(a, u, n);
    }
  }

  lemma FirstLits(a: Graph, code: seq<nat>, n: nat)
    requires FirstCodes(a, code, n)
    ensures |code| == 2 * (a.maxvar + 1)
    ensures forall i :: 0 <= i < |a.inputs| ==> Fresh(a, a.inputs[i], Input(i))
    ensures forall i :: 0 <= i < |a.latches| ==> Fresh(a, a.latches[i].lit, Latched(i))
  {}

  lemma FirstSize(a: Graph, code: seq<nat>, n: nat)
    requires FirstCodes(a, code, n)
    ensures |code| == 2 * (a.maxvar + 1)
  {}

  lemma FirstUncoded(a: Graph, code: seq<nat>, n: nat, lit: nat)
    requires FirstCodes(a, code, n) && n < |a.inputs| + |a.latches|
    requires Fresh(a, lit, if n < |a.inputs| then Input(n) else Latched(n - |a.inputs|))
    ensures 0 < Var(lit) <= a.maxvar && lit == 2 * Var(lit) && !Coded(code, Var(lit))
  {
    hide Table, Typed;
    assert Coded(code, Var(lit)) ==> LeafIndex(a, Var(lit), n);
  }

  lemma FirstCodesCoding(a: Graph, code: seq<nat>, n: nat)
    requires Legal(a) && FirstCodes(a, code, n) && n == |a.inputs| + |a.latches|
    ensures Coding(a, [], code, 2 * (n + 1))
  {
    hide Table;
    FirstSize(a, code, n);
    forall v: nat | Coded(code, v) ensures !IsGate(a, v) && v < |a.kinds| && a.kinds[v] != Undefined {
      assert LeafIndex(a, v, n);
    }
  }

  // ------------------------------------------------------- codes stay valid

  lemma CodedStays(before: seq<nat>, code: seq<nat>, lit: nat)
    requires Extends(before, code) && CodedLit(before, lit) && |before| >= 2 && before[0] == 0 && code[0] == 0
    requires before[1] == 1 && forall v: nat :: Coded(before, v) && 2 * v + 1 < |before| ==> before[2 * v + 1] > 0
    requires |before| % 2 == 0
    ensures CodedLit(code, lit) && code[lit] == before[lit]
  {
    assert lit == 2 * Var(lit) || lit == 2 * Var(lit) + 1;
    if lit >= 2 {
      assert before[2 * Var(lit)] > 0;
    }
  }

  /** What the growth of the table keeps. */
  ghost predicate Grows(before: seq<nat>, code: seq<nat>) {
    && |code| == |before|
    && forall lit: nat :: CodedLit(before, lit) ==> CodedLit(code, lit) && code[lit] == before[lit]
  }

  lemma ExtendsGrows(a: Graph, roots: seq<nat>, before: seq<nat>, next: nat, roots2: seq<nat>, code: seq<nat>, next2: nat)
    requires Coding(a, roots, before, next) && Coding(a, roots2, code, next2) && Extends(before, code)
    ensures Grows(before, code)
  {
    TableLits(a, roots, before, next);
    CodingTableOf(a, roots2, code, next2);
    forall lit: nat | CodedLit(before, lit) ensures CodedLit(code, lit) && code[lit] == before[lit] {
      CodedStays(before, code, lit);
    }
  }

  lemma TableLits(a: Graph, roots: seq<nat>, code: seq<nat>, next: nat)
    requires Coding(a, roots, code, next)
    ensures |code| >= 2 && |code| % 2 == 0 && code[0] == 0 && code[1] == 1
    ensures forall v: nat :: Coded(code, v) && 2 * v + 1 < |code| ==> code[2 * v + 1] > 0
  {}

  lemma TranslatedGrows(before: seq<nat>, code: seq<nat>, xs: seq<nat>, ys: seq<nat>)
    requires Grows(before, code) && Translated(before, xs, ys)
    ensures Translated(code, xs, ys)
  {
    hide Coded;
    forall i | 0 <= i < |xs| ensures CodedLit(code, xs[i]) && ys[i] == code[xs[i]] { assert CodedLit(before, xs[i]); }
  }

  lemma TranslatedNext(code: seq<nat>, xs: seq<nat>, n: nat, ys: seq<nat>, y: nat)
    requires n < |xs| && Translated(code, xs[..n], ys) && CodedLit(code, xs[n]) && y == code[xs[n]]
    ensures Translated(code, xs[..n + 1], ys + [y])
  {
    hide Coded;
    forall i | 0 <= i < n + 1 ensures CodedLit(code, xs[..n + 1][i]) && (ys + [y])[i] == code[xs[..n + 1][i]] {
      if i < n { assert xs[..n + 1][i] == xs[..n][i]; }
    }
  }

  // ------------------------------------------------------- latches

  /** The first n latches have their new next-state and reset literals. */
  ghost predicate LatchesDone(code: seq<nat>, xs: seq<Latch>, ys: seq<Latch>, n: nat) {
    && |ys| == |xs| && n <= |xs|
    && (forall i :: 0 <= i < |xs| ==> ys[i].lit == xs[i].lit)
    && (forall i :: n <= i < |xs| ==> ys[i] == xs[i])
    && (forall i :: 0 <= i < n ==>
          && CodedLit(code, xs[i].next) && CodedLit(code, xs[i].reset)
          && ys[i].next == code[xs[i].next] && ys[i].reset == code[xs[i].reset])
  }

  lemma LatchesGrow(before: seq<nat>, code: seq<nat>, xs: seq<Latch>, ys: seq<Latch>, n: nat)
    requires Grows(before, code) && LatchesDone(before, xs, ys, n)
    ensures LatchesDone(code, xs, ys, n)
  {
    hide Coded;
    forall i | 0 <= i < n
      ensures CodedLit(code, xs[i].next) && CodedLit(code, xs[i].reset)
      ensures ys[i].next == code[xs[i].next] && ys[i].reset == code[xs[i].reset]
    {
      assert CodedLit(before, xs[i].next) && CodedLit(before, xs[i].reset);
    }
  }

  lemma LatchRootsNext(ls: seq<Latch>, n: nat)
    requires n < |ls|
    ensures Latches(ls[..n]) + [ls[n].next] + [ls[n].reset] == Latches(ls[..n + 1])
  {
    assert ls[..n + 1][..n] == ls[..n];
  }

  lemma LatchDefined(a: Graph, n: nat)
    requires Legal(a) && n < |a.latches|
    ensures Defined(a, a.latches[n].next) && Defined(a, a.latches[n].reset)
  {
    hide Defined;
    RootLists(a);
    assert Nexts(a.latches)[n] == a.latches[n].next && Resets(a.latches)[n] == a.latches[n].reset;
  }

  lemma FlattenNext(s: seq<seq<nat>>, n: nat)
    requires n < |s|
    ensures Flatten(s[..n]) + s[n] == Flatten(s[..n + 1])
  {
    assert s[..n + 1][..n] == s[..n];
  }

  /** The first n lists have been translated, the others are as they were. */
  ghost predicate JusticeDone(code: seq<nat>, xs: seq<seq<nat>>, ys: seq<seq<nat>>, n: nat) {
    && |ys| == |xs| && n <= |xs|
    && (forall i :: n <= i < |xs| ==> ys[i] == xs[i])
    && (forall i :: 0 <= i < n ==> Translated(code, xs[i], ys[i]))
  }

  lemma JusticeGrows(before: seq<nat>, code: seq<nat>, xs: seq<seq<nat>>, ys: seq<seq<nat>>, n: nat)
    requires Grows(before, code) && JusticeDone(before, xs, ys, n)
    ensures JusticeDone(code, xs, ys, n)
  {
    hide Translated, Grows;
    forall i | 0 <= i < n ensures Translated(code, xs[i], ys[i]) { TranslatedGrows(before, code, xs[i], ys[i]); }
  }

  // ------------------------------------------------------- the new gates

  /** The gates among the first i, recoded, in the order in which they are met. */
  ghost predicate Compacted(a: Graph, code: seq<nat>, gs: seq<And>, i: nat) {
    && i <= |a.ands| && (forall k :: 0 <= k < |a.ands| ==> InTable(code, a.ands[k]))
    && (forall j :: 0 <= j < |gs| ==> Stems(a, code, gs[j], i))
    && (forall k :: 0 <= k < i && code[a.ands[k].lhs] > 0 ==> RecodeAnd(code, a.ands[k]) in gs)
    && (forall j, k :: 0 <= j < k < |gs| ==> gs[j].lhs != gs[k].lhs)
  }

  lemma AndsInTable(a: Graph, roots: seq<nat>, code: seq<nat>, next: nat)
    requires Coding(a, roots, code, next)
    ensures forall k :: 0 <= k < |a.ands| ==> InTable(code, a.ands[k])
    ensures Compacted(a, code, [], 0)
  {
    CodingLegal(a, roots, code, next);
    forall k | 0 <= k < |a.ands| ensures InTable(code, a.ands[k]) {
      assert Fresh(a, a.ands[k].lhs, Gate(k)) && Defined(a, a.ands[k].rhs0) && Defined(a, a.ands[k].rhs1);
    }
  }

  /** Different gates have different codes. */
  lemma DifferentCodes(a: Graph, roots: seq<nat>, code: seq<nat>, next: nat, i: nat, j: nat)
    requires Coding(a, roots, code, next) && i < j < |a.ands| && a.ands[i].lhs < |code| && a.ands[j].lhs < |code|
    requires code[a.ands[i].lhs] > 0
    ensures code[a.ands[i].lhs] != code[a.ands[j].lhs]
  {
    CodingLegal(a, roots, code, next);
    CodingTableOf(a, roots, code, next);
    assert Fresh(a, a.ands[i].lhs, Gate(i)) && Fresh(a, a.ands[j].lhs, Gate(j));
    var u, v := Var(a.ands[i].lhs), Var(a.ands[j].lhs);
    assert u != v && Coded(code, u) && code[2 * u] == code[a.ands[i].lhs] && code[2 * v] == code[a.ands[j].lhs];
  }

  lemma StemsLater(a: Graph, code: seq<nat>, g: And, i: nat, n: nat)
    requires Stems(a, code, g, i) && i <= n <= |a.ands|
    ensures Stems(a, code, g, n)
  {
    var k :| 0 <= k < i && InTable(code, a.ands[k]) && code[a.ands[k].lhs] > 0 && g == RecodeAnd(code, a.ands[k]);
    assert InTable(code, a.ands[k]) && g == RecodeAnd(code, a.ands[k]);
  }

  lemma StemsDiffer(a: Graph, roots: seq<nat>, code: seq<nat>, next: nat, g: And, i: nat)
    requires Coding(a, roots, code, next) && Stems(a, code, g, i) && i < |a.ands| && a.ands[i].lhs < |code|
    ensures g.lhs != code[a.ands[i].lhs]
  {
    hide Coding;
    var k :| 0 <= k < i && InTable(code, a.ands[k]) && code[a.ands[k].lhs] > 0 && g == RecodeAnd(code, a.ands[k]);
    DifferentCodes(a, roots, code, next, k, i);
  }

  lemma CompactNext(a: Graph, roots: seq<nat>, code: seq<nat>, next: nat, gs: seq<And>, i: nat)
    requires Coding(a, roots, code, next) && Compacted(a, code, gs, i) && i < |a.ands|
    ensures a.ands[i].lhs < |code| && InTable(code, a.ands[i])
    ensures Compacted(a, code, if code[a.ands[i].lhs] > 0 then gs + [RecodeAnd(code, a.ands[i])] else gs, i + 1)
  {
    hide Coding, Stems, RecodeAnd;
    forall j | 0 <= j < |gs| ensures Stems(a, code, gs[j], i + 1) { StemsLater(a, code, gs[j], i, i + 1); }
    if code[a.ands[i].lhs] > 0 {
      var hs := gs + [RecodeAnd(code, a.ands[i])];
      RecodedStems(a, code, i);
      forall j | 0 <= j < |gs| ensures gs[j].lhs != code[a.ands[i].lhs] {
        StemsDiffer(a, roots, code, next, gs[j], i);
      }
      forall k | 0 <= k < i + 1 && code[a.ands[k].lhs] > 0 ensures RecodeAnd(code, a.ands[k]) in hs {
        if k == i { assert hs[|gs|] == RecodeAnd(code, a.ands[i]); }
      }
    }
  }

  lemma RecodedStems(a: Graph, code: seq<nat>, i: nat)
    requires i < |a.ands| && InTable(code, a.ands[i]) && code[a.ands[i].lhs] > 0
    ensures Stems(a, code, RecodeAnd(code, a.ands[i]), i + 1) && RecodeAnd(code, a.ands[i]).lhs == code[a.ands[i].lhs]
  {}

  // ------------------------------------------------------- sorting by left-hand side

  function InsertByLhs(g: And, s: seq<And>): seq<And> {
    if s == [] || g.lhs < s[0].lhs then [g] + s else [s[0]] + InsertByLhs(g, s[1..])
  }

  /** The gates in increasing order of left-hand sides. */
  function SortByLhs(s: seq<And>): seq<And> {
    if s == [] then [] else InsertByLhs(s[0], SortByLhs(s[1..]))
  }

  ghost predicate Increasing(s: seq<And>) {
    forall i, j :: 0 <= i < j < |s| ==> s[i].lhs < s[j].lhs
  }

  lemma {:induction false} InsertMembers(g: And, s: seq<And>, x: And)
    ensures x in InsertByLhs(g, s) <==> x == g || x in s
  {
    if s == [] || g.lhs < s[0].lhs {
    } else {
      InsertMembers(g, s[1..], x);
      assert s == [s[0]] + s[1..];
    }
  }

  lemma {:induction false} InsertIncreasing(g: And, s: seq<And>)
    requires Increasing(s) && forall i :: 0 <= i < |s| ==> s[i].lhs != g.lhs
    ensures Increasing(InsertByLhs(g, s))
  {
    if s == [] || g.lhs < s[0].lhs {
    } else {
      var t := InsertByLhs(g, s[1..]);
      InsertIncreasing(g, s[1..]);
      forall i | 0 <= i < |t| ensures s[0].lhs < t[i].lhs {
        InsertMembers(g, s[1..], t[i]);
      }
    }
  }

  lemma {:induction false} SortMembers(s: seq<And>, x: And)
    ensures x in SortByLhs(s) <==> x in s
  {
    if s != [] {
      SortMembers(s[1..], x);
      InsertMembers(s[0], SortByLhs(s[1..]), x);
      assert s == [s[0]] + s[1..];
    }
  }

  lemma {:induction false} SortIncreasing(s: seq<And>)
    requires forall i, j :: 0 <= i < j < |s| ==> s[i].lhs != s[j].lhs
    ensures Increasing(SortByLhs(s))
  {
    if s != [] {
      SortIncreasing(s[1..]);
      var t := SortByLhs(s[1..]);
      forall i | 0 <= i < |t| ensures t[i].lhs != s[0].lhs {
        SortMembers(s[1..], t[i]);
        var k :| 0 <= k < |s[1..]| && s[1..][k] == t[i];
      }
      InsertIncreasing(s[0], t);
    }
  }

  lemma SortedAreNew(a: Graph, code: seq<nat>, gs: seq<And>)
    requires Compacted(a, code, gs, |a.ands|)
    ensures NewAnds(a, code, SortByLhs(gs))
  {
    hide SortByLhs, Stems, RecodeAnd;
    var t := SortByLhs(gs);
    SortIncreasing(gs);
    forall j | 0 <= j < |t| ensures Stems(a, code, t[j], |a.ands|) {
      SortMembers(gs, t[j]);
      var k :| 0 <= k < |gs| && gs[k] == t[j];
    }
    forall i | 0 <= i < |a.ands| && code[a.ands[i].lhs] > 0 ensures RecodeAnd(code, a.ands[i]) in t {
      SortMembers(gs, RecodeAnd(code, a.ands[i]));
    }
  }

  lemma LegalTyped(a: Graph)
    requires Legal(a)
    ensures Typed(a)
  {}

  lemma NothingTranslated(code: seq<nat>, lits: seq<nat>)
    ensures Translated(code, lits[..0], [])
  {}

  lemma GrowsSelf(code: seq<nat>)
    ensures Grows(code, code)
  {}

  lemma GrowsChain(c0: seq<nat>, c1: seq<nat>, c2: seq<nat>)
    requires Grows(c0, c1) && Grows(c1, c2)
    ensures Grows(c0, c2)
  {}

  // ------------------------------------------------------- no more variables than before

  ghost function CodedUpTo(a: Graph, code: seq<nat>, n: nat): set<nat> {
    set v: nat | v <= a.maxvar && Coded(code, v) && code[2 * v] <= 2 * n
  }

  ghost function UpTo(n: nat): set<nat> {
    if n == 0 then {} else UpTo(n - 1) + {n}
  }

  lemma {:induction false} UpToCard(n: nat)
    ensures |UpTo(n)| == n && forall v: nat :: v in UpTo(n) <==> 0 < v <= n
  {
    if n > 0 { UpToCard(n - 1); }
  }

  lemma NextCoded(a: Graph, code: seq<nat>, next: nat, n: nat) returns (v: nat)
    requires Table(a, code, next) && 0 < 2 * n < next
    ensures v !in CodedUpTo(a, code, n - 1) && CodedUpTo(a, code, n) == CodedUpTo(a, code, n - 1) + {v}
  {
    assert HasCode(code, 2 * n);
    v :| Coded(code, v) && code[2 * v] == 2 * n;
    forall u: nat | u in CodedUpTo(a, code, n) && u !in CodedUpTo(a, code, n - 1) ensures u == v {
      assert code[2 * u] % 2 == 0 && code[2 * u] == 2 * n;
    }
  }

  lemma {:induction false} CodedCard(a: Graph, code: seq<nat>, next: nat, n: nat)
    requires Table(a, code, next) && 2 * n < next
    ensures |CodedUpTo(a, code, n)| == n
    decreases n
  {
    if n == 0 {
      assert CodedUpTo(a, code, 0) == {};
    } else {
      CodedCard(a, code, next, n - 1);
      hide Table, CodedUpTo;
      var v := NextCoded(a, code, next, n);
    }
  }

  /** The new graph has no more variables than the old one. */
  lemma VariablesShrink(a: Graph, roots: seq<nat>, code: seq<nat>, next: nat)
    requires Coding(a, roots, code, next)
    ensures next >= 2 && next % 2 == 0 && Var(next - 1) + 1 == next / 2 && Var(next - 1) <= a.maxvar < |a.kinds|
  {
    CodingLegal(a, roots, code, next);
    CodingTableOf(a, roots, code, next);
    var n := next / 2 - 1;
    CodedCard(a, code, next, n);
    UpToCard(a.maxvar);
    forall v | v in CodedUpTo(a, code, n) ensures v in UpTo(a.maxvar) {}
    SubsetCard(CodedUpTo(a, code, n), UpTo(a.maxvar));
  }

  // ------------------------------------------------------- putting the parts together

  /** The order of the variables in a renumbered graph: inputs, latches, gates. */
  ghost predicate Placed(a: Graph, code: seq<nat>, gs: seq<And>, maxvar: nat) {
    && (forall i :: 0 <= i < |a.inputs| ==> a.inputs[i] < |code| && code[a.inputs[i]] == 2 * (i + 1))
    && (forall i :: 0 <= i < |a.latches| ==>
          a.latches[i].lit < |code| && code[a.latches[i].lit] == 2 * (|a.inputs| + i + 1))
    && (forall j :: 0 <= j < |gs| ==> gs[j].lhs == Leaves(a) + 2 + 2 * j)
    && maxvar == |a.inputs| + |a.latches| + |gs|
  }

  lemma PartsPlaced(a: Graph, code: seq<nat>, next: nat, gs: seq<And>)
    requires Coding(a, Roots(a), code, next) && NewAnds(a, code, gs) && next > 0
    ensures Placed(a, code, gs, Var(next - 1))
  {
    CountGates(a, code, next, gs);
    CodingLegal(a, Roots(a), code, next);
    forall j | 0 <= j < |gs| ensures gs[j].lhs == Leaves(a) + 2 + 2 * j { Consecutive(a, code, next, gs, j); }
    LeafPlaces(a, code, next);
  }

  lemma LeafPlaces(a: Graph, code: seq<nat>, next: nat)
    requires Coding(a, Roots(a), code, next)
    ensures forall i :: 0 <= i < |a.inputs| ==> a.inputs[i] < |code| && code[a.inputs[i]] == 2 * (i + 1)
    ensures forall i :: 0 <= i < |a.latches| ==>
              a.latches[i].lit < |code| && code[a.latches[i].lit] == 2 * (|a.inputs| + i + 1)
  {
    hide Roots, Table, GatesCoded, ConeOnly;
    CodingLegal(a, Roots(a), code, next);
    forall i | 0 <= i < |a.inputs| ensures a.inputs[i] < |code| { assert Fresh(a, a.inputs[i], Input(i)); }
    forall i | 0 <= i < |a.latches| ensures a.latches[i].lit < |code| { assert Fresh(a, a.latches[i].lit, Latched(i)); }
  }

  lemma TranslatedLeaves(a: Graph, code: seq<nat>, next: nat, b: Graph, mid: seq<Latch>)
    requires Coding(a, Roots(a), code, next) && LatchesDone(code, a.latches, mid, |a.latches|)
    requires |b.inputs| == |a.inputs| && forall i :: 0 <= i < |a.inputs| ==> b.inputs[i] == 2 * (i + 1)
    requires |b.latches| == |a.latches|
    requires forall i :: 0 <= i < |a.latches| ==> b.latches[i] == mid[i].(lit := 2 * (|a.inputs| + i + 1))
    ensures Translated(code, a.inputs, b.inputs) && TranslatedLatches(code, a.latches, b.latches)
  {
    hide Roots, Table, GatesCoded, ConeOnly;
    LeafPlaces(a, code, next);
    CodingLegal(a, Roots(a), code, next);
    forall i | 0 <= i < |a.inputs| ensures CodedLit(code, a.inputs[i]) {
      assert Fresh(a, a.inputs[i], Input(i)) && a.inputs[i] == 2 * Var(a.inputs[i]);
    }
    forall i | 0 <= i < |a.latches| ensures CodedLit(code, a.latches[i].lit) {
      assert Fresh(a, a.latches[i].lit, Latched(i)) && a.latches[i].lit == 2 * Var(a.latches[i].lit);
    }
  }

  lemma NoLatches(a: Graph)
    ensures Latches(a.latches[..0]) == []
  {}

  lemma NoJustice(roots: seq<nat>, s: seq<seq<nat>>)
    ensures roots + Flatten(s[..0]) == roots
  {}

  lemma LatchGrows(before: seq<nat>, code: seq<nat>, xs: seq<Latch>, ys: seq<Latch>, n: nat)
    requires Grows(before, code) && n < |xs| == |ys|
    requires forall i :: 0 <= i < |xs| ==> ys[i].lit == xs[i].lit
    requires forall i :: n < i < |xs| ==> ys[i] == xs[i]
    requires forall i :: 0 <= i < n ==>
               && CodedLit(before, xs[i].next) && CodedLit(before, xs[i].reset)
               && ys[i].next == before[xs[i].next] && ys[i].reset == before[xs[i].reset]
    requires CodedLit(before, xs[n].next) && ys[n].next == before[xs[n].next]
    ensures forall i :: 0 <= i < n ==>
               && CodedLit(code, xs[i].next) && CodedLit(code, xs[i].reset)
               && ys[i].next == code[xs[i].next] && ys[i].reset == code[xs[i].reset]
    ensures CodedLit(code, xs[n].next) && ys[n].next == code[xs[n].next]
  {
    hide Coded;
    forall i | 0 <= i < n
      ensures CodedLit(code, xs[i].next) && CodedLit(code, xs[i].reset)
      ensures ys[i].next == code[xs[i].next] && ys[i].reset == code[xs[i].reset]
    {
      assert CodedLit(before, xs[i].next) && CodedLit(before, xs[i].reset);
    }
  }

  lemma KindsFresh(b: Graph)
    requires |b.kinds| > b.maxvar && b.kinds[0] == Undefined && b.maxvar == |b.inputs| + |b.latches| + |b.ands|
    requires forall k :: 0 <= k < |b.inputs| ==> b.inputs[k] == 2 * (k + 1) && b.kinds[k + 1] == Input(k)
    requires forall k :: 0 <= k < |b.latches| ==>
               b.latches[k].lit == 2 * (|b.inputs| + k + 1) && b.kinds[|b.inputs| + k + 1] == Latched(k)
    requires forall j :: 0 <= j < |b.ands| ==>
               b.ands[j].lhs == Leaves(b) + 2 + 2 * j && b.kinds[|b.inputs| + |b.latches| + 1 + j] == Gate(j)
    ensures FreshKinds(b)
  {}

  /** The lists of roots other than the latches have been translated. */
  ghost predicate RootsDone(code: seq<nat>, a: Graph, b: Graph) {
    && Translated(code, a.outputs, b.outputs) && Translated(code, a.bad, b.bad)
    && Translated(code, a.constraints, b.constraints) && TranslatedJustice(code, a.justice, b.justice)
    && Translated(code, a.fairness, b.fairness)
  }

  lemma RootsDoneLists(code: seq<nat>, a: Graph, b: Graph)
    requires exists c: Graph :: RootsDone(code, a, c) && c.outputs == b.outputs && c.bad == b.bad
                                && c.constraints == b.constraints && c.justice == b.justice && c.fairness == b.fairness
    ensures Translated(code, a.outputs, b.outputs) && Translated(code, a.bad, b.bad)
    ensures Translated(code, a.constraints, b.constraints) && TranslatedJustice(code, a.justice, b.justice)
    ensures Translated(code, a.fairness, b.fairness)
  {}

  lemma JusticeStays(before: seq<nat>, code: seq<nat>, xs: seq<seq<nat>>, ys: seq<seq<nat>>)
    requires Grows(before, code) && TranslatedJustice(before, xs, ys)
    ensures TranslatedJustice(code, xs, ys)
  {
    JusticeGrows(before, code, xs, ys, |xs|);
  }

  /** What was translated while the table grew is right for the final table. */
  lemma GrowChain(a: Graph, b: Graph, c0: seq<nat>, c1: seq<nat>, c2: seq<nat>, c3: seq<nat>, c4: seq<nat>, c5: seq<nat>,
                  ls: seq<Latch>)
    requires Grows(c0, c1) && Grows(c1, c2) && Grows(c2, c3) && Grows(c3, c4) && Grows(c4, c5)
    requires LatchesDone(c0, a.latches, ls, |a.latches|)
    requires Translated(c1, a.outputs, b.outputs) && Translated(c2, a.bad, b.bad)
    requires Translated(c3, a.constraints, b.constraints) && TranslatedJustice(c4, a.justice, b.justice)
    requires Translated(c5, a.fairness, b.fairness)
    ensures LatchesDone(c5, a.latches, ls, |a.latches|) && RootsDone(c5, a, b)
  {
    hide Grows, Translated, TranslatedJustice, LatchesDone;
    GrowsChain(c3, c4, c5);
    GrowsChain(c2, c3, c5);
    GrowsChain(c1, c2, c5);
    GrowsChain(c0, c1, c5);
    LatchesGrow(c0, c5, a.latches, ls, |a.latches|);
    TranslatedGrows(c1, c5, a.outputs, b.outputs);
    TranslatedGrows(c2, c5, a.bad, b.bad);
    TranslatedGrows(c3, c5, a.constraints, b.constraints);
    JusticeStays(c4, c5, a.justice, b.justice);
  }

  lemma MidLatches(code: seq<nat>, xs: seq<Latch>, ys: seq<Latch>)
    requires LatchesDone(code, xs, ys, |xs|)
    ensures |ys| == |xs| && forall i :: 0 <= i < |xs| ==> ys[i].lit == xs[i].lit
  {}

  lemma ConstantKind(a: Graph, roots: seq<nat>, code: seq<nat>, next: nat)
    requires Coding(a, roots, code, next)
    ensures a.kinds != [] && a.kinds[0] == Undefined
  {}
}
