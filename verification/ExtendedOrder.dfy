/** The order on existentials behind extended dependencies, and what the searches in it find. */
module ExtendedOrder {
  import opened DependencyTables
  import opened QuantifierPrefixes

  /** The dependencies of w are fewer, or the same and w has the smaller name. */
  ghost predicate Before(d: map<int, set<int>>, w: int, v: int) {
    w in d && v in d && (d[w] < d[v] || (d[w] == d[v] && w < v))
  }

  ghost function Lower(d: map<int, set<int>>, v: int): set<int> {
    set w | w in d && Before(d, w, v)
  }

  /** Every existential has its own dependencies and the existentials before it. */
  ghost predicate IsExtended(ext: map<int, seq<int>>, d: map<int, set<int>>) {
    ext.Keys == d.Keys && forall v :: v in d ==> Elements(ext[v]) == d[v] + Lower(d, v)
  }

  lemma BeforeIsStrict(d: map<int, set<int>>)
    ensures forall v :: !Before(d, v, v)
    ensures forall u, v, w :: Before(d, u, v) && Before(d, v, w) ==> Before(d, u, w)
  {}

  /** Extended dependencies, sorted, are a sound start for finding definitions. */
  lemma ExtendedIsSoundStart(universals: set<int>, ext: map<int, seq<int>>, d: map<int, set<int>>)
    requires IsExtended(ext, d) && universals !! d.Keys
    requires forall v :: v in d ==> Increasing(ext[v]) && d[v] <= universals
    ensures Sound(Table(universals, ext, {}, map[], map[]), d)
  {
    var t, before := Table(universals, ext, {}, map[], map[]), (w, v) => Before(d, w, v);
    BeforeIsStrict(d);
    forall v, w | v in d ensures w in ext[v] <==> w in d[v] || (w in d && before(w, v)) {
      assert w in Elements(ext[v]) <==> w in d[v] + Lower(d, v);
    }
    forall v, w | v in d && w in d && before(w, v) ensures d[w] <= d[v] {}
    assert forall u, v, w :: before(u, v) && before(v, w) ==> before(u, w);
    hide Before, Lower, IsExtended;
    ExtendedSound(t, d, before);
  }

  // ------------------------------------------------------- one more existential

  /** What v gains when x is compared with the existentials in s. */
  ghost function Gains(d: map<int, set<int>>, x: int, s: set<int>, v: int): set<int> {
    if v == x then set w | w in s && Before(d, w, x)
    else if v in s && Before(d, x, v) then {x}
    else {}
  }

  ghost predicate Gained(ext: map<int, seq<int>>, more: map<int, seq<int>>, d: map<int, set<int>>, x: int, s: set<int>) {
    more.Keys == ext.Keys && forall v :: v in ext ==> Elements(more[v]) == Elements(ext[v]) + Gains(d, x, s, v)
  }

  /** The extended dependencies among the existentials in `done`. */
  ghost predicate Covers(ext: map<int, seq<int>>, d: map<int, set<int>>, done: set<int>) {
    && ext.Keys == done <= d.Keys
    && forall v :: v in done ==> Elements(ext[v]) == d[v] + Lower(d, v) * done
  }

  lemma CoversAll(ext: map<int, seq<int>>, d: map<int, set<int>>)
    requires Covers(ext, d, d.Keys)
    ensures IsExtended(ext, d)
  {
    forall v | v in d ensures Elements(ext[v]) == d[v] + Lower(d, v) { assert Lower(d, v) * d.Keys == Lower(d, v); }
  }

  /** Comparing x with all that came before extends the cover to x. */
  lemma CoversNext(ext: map<int, seq<int>>, list: seq<int>, one: map<int, seq<int>>, two: map<int, seq<int>>,
                   d: map<int, set<int>>, s: set<int>, r: set<int>, x: int)
    requires Covers(ext, d, s + r) && x in d && x !in s + r && Elements(list) == d[x] && s !! r
    requires Gained(ext[x := list], one, d, x, s) && Gained(one, two, d, x, r)
    ensures Covers(two, d, s + r + {x})
  {
    var done := s + r + {x};
    forall v | v in done ensures Elements(two[v]) == d[v] + Lower(d, v) * done {
      assert Elements(one[v]) == Elements(ext[x := list][v]) + Gains(d, x, s, v);
      assert Elements(two[v]) == Elements(one[v]) + Gains(d, x, r, v);
      if v == x {
        assert Lower(d, x) * done == Gains(d, x, s, x) + Gains(d, x, r, x);
      } else {
        assert Lower(d, v) * done == Lower(d, v) * (s + r) + Gains(d, x, s, v) + Gains(d, x, r, v);
      }
    }
  }

  // ------------------------------------------------------- increasing lists

  lemma {:induction false} ListCard(s: seq<int>)
    requires Increasing(s)
    ensures |Elements(s)| == |s|
  {
    if s != [] {
      var r := s[..|s| - 1];
      ListCard(r);
      assert s == r + [s[|s| - 1]];
      ElementsAppended(r, s[|s| - 1]);
    }
  }

  /** Inclusion between increasing lists, and equality when they have the same length. */
  lemma ListsCompare(a: seq<int>, b: seq<int>)
    requires Increasing(a) && Increasing(b)
    ensures Includes(a, b) <==> Elements(b) <= Elements(a)
    ensures Includes(a, b) ==> (|a| == |b| <==> Elements(a) == Elements(b))
  {
    IncludesMeans(a, b);
    ListCard(a);
    ListCard(b);
    if Includes(a, b) && |a| == |b| {
      assert Elements(a) == Elements(b) + (Elements(a) - Elements(b));
    }
  }

  // ------------------------------------------------------- blocks with growing dependencies

  ghost predicate InScopes(vars: seq<int>, d: map<int, set<int>>) {
    forall k :: 0 <= k < |vars| ==> vars[k] in d
  }

  ghost predicate SameWithin(vars: seq<int>, ends: seq<nat>, d: map<int, set<int>>)
    requires Boundaries(ends, |vars|) && InScopes(vars, d)
  {
    forall i, k :: 0 <= i < |ends| - 1 && ends[i] <= k < ends[i + 1] ==> d[vars[k]] == d[vars[ends[i]]]
  }

  ghost predicate NamesRise(vars: seq<int>, ends: seq<nat>)
    requires Boundaries(ends, |vars|)
  {
    forall i, k, l :: 0 <= i < |ends| - 1 && ends[i] <= k < l < ends[i + 1] ==> vars[k] < vars[l]
  }

  ghost predicate BlocksGrow(vars: seq<int>, ends: seq<nat>, d: map<int, set<int>>)
    requires Boundaries(ends, |vars|) && InScopes(vars, d)
  {
    forall i, j :: 0 <= i < j < |ends| - 1 ==> d[vars[ends[i]]] < d[vars[ends[j]]]
  }

  /** Existential blocks: same dependencies and increasing names within, more dependencies from block to block. */
  ghost predicate Ladder(vars: seq<int>, ends: seq<nat>, d: map<int, set<int>>) {
    && Boundaries(ends, |vars|) && InScopes(vars, d)
    && SameWithin(vars, ends, d) && NamesRise(vars, ends) && BlocksGrow(vars, ends, d)
  }

  lemma EndsRise(ends: seq<nat>, n: nat, i: nat)
    requires Boundaries(ends, n) && i < |ends| - 1
    ensures ends[i] < ends[i + 1] <= n
  {
    if i + 1 < |ends| - 1 { assert ends[i + 1] < ends[|ends| - 1]; }
  }

  lemma EndsOrdered(ends: seq<nat>, n: nat, i: nat, j: nat)
    requires Boundaries(ends, n) && i <= j < |ends|
    ensures ends[i] <= ends[j]
  {}

  /** The block of position k. */
  lemma {:induction false} BlockOf(ends: seq<nat>, n: nat, k: nat, j: nat) returns (i: nat)
    requires Boundaries(ends, n) && j < |ends| && k < ends[j]
    ensures i < j && ends[i] <= k < ends[i + 1]
  {
    if j > 0 && k < ends[j - 1] { i := BlockOf(ends, n, k, j - 1); } else { i := j - 1; }
  }

  /** In a ladder the order is that of the positions. */
  lemma LadderOrder(vars: seq<int>, ends: seq<nat>, d: map<int, set<int>>, k: nat, l: nat)
    requires Ladder(vars, ends, d) && k < l < |vars|
    ensures vars[k] in d && vars[l] in d && Before(d, vars[k], vars[l]) && !Before(d, vars[l], vars[k])
  {
    var n := |vars|;
    var i := BlockOf(ends, n, k, |ends| - 1);
    var j := BlockOf(ends, n, l, |ends| - 1);
    EndsRise(ends, n, i);
    EndsRise(ends, n, j);
    if j < i { EndsOrdered(ends, n, j + 1, i); }
    if i < j { EndsOrdered(ends, n, i + 1, j); }
    assert d[vars[k]] == d[vars[ends[i]]] && d[vars[l]] == d[vars[ends[j]]];
  }

  /** The dependencies of block i. */
  ghost function Rung(vars: seq<int>, ends: seq<nat>, d: map<int, set<int>>, i: nat): set<int>
    requires Ladder(vars, ends, d) && i < |ends| - 1
  {
    EndsRise(ends, |vars|, i);
    d[vars[ends[i]]]
  }

  lemma RungsRise(vars: seq<int>, ends: seq<nat>, d: map<int, set<int>>, i: nat, j: nat)
    requires Ladder(vars, ends, d) && i <= j < |ends| - 1
    ensures Rung(vars, ends, d, i) <= Rung(vars, ends, d, j) && (i < j ==> Rung(vars, ends, d, i) < Rung(vars, ends, d, j))
  {}

  /** Where x stands: from position `above` on the variables are after x, up to position `below` before x. */
  ghost predicate Stands(vars: seq<int>, d: map<int, set<int>>, x: int, below: nat, above: nat) {
    forall k :: 0 <= k < |vars| ==> (Before(d, vars[k], x) <==> k < below) && (Before(d, x, vars[k]) <==> k >= above)
  }

  /** x compared with the blocks: rungs up to r are within its dependencies, rungs from s on contain them. */
  ghost predicate Between(vars: seq<int>, ends: seq<nat>, d: map<int, set<int>>, x: int, r: int, s: nat)
    requires Ladder(vars, ends, d)
  {
    && x in d && -1 <= r < |ends| - 1 && s < |ends|
    && (forall i: nat :: i < |ends| - 1 ==> (Rung(vars, ends, d, i) <= d[x] <==> i <= r))
    && (forall i: nat :: r < i < |ends| - 1 ==> (d[x] <= Rung(vars, ends, d, i) <==> i >= s))
  }

  /** No block has the dependencies of x. */
  lemma StandsBetween(vars: seq<int>, ends: seq<nat>, d: map<int, set<int>>, x: int, r: int, s: nat)
    requires Ladder(vars, ends, d) && Between(vars, ends, d, x, r, s) && r < s
    requires r >= 0 ==> Rung(vars, ends, d, r) != d[x]
    ensures ends[s] <= |vars| && ends[r + 1] <= |vars|
    ensures Stands(vars, d, x, ends[r + 1], ends[s])
  {
    var n := |vars|;
    if s < |ends| - 1 { EndsRise(ends, n, s); }
    EndsRise1(ends, n, r);
    forall k | 0 <= k < n
      ensures (Before(d, vars[k], x) <==> k < ends[r + 1]) && (Before(d, x, vars[k]) <==> k >= ends[s])
    {
      var i := BlockOf(ends, n, k, |ends| - 1);
      assert d[vars[k]] == Rung(vars, ends, d, i);
      if i <= r {
        RungsRise(vars, ends, d, i, r);
        assert ends[i + 1] <= ends[r + 1];
      } else {
        assert ends[r + 1] <= ends[i];
      }
      if i >= s { assert ends[s] <= ends[i]; } else { assert ends[i + 1] <= ends[s]; }
    }
  }

  lemma EndsRise1(ends: seq<nat>, n: nat, r: int)
    requires Boundaries(ends, n) && -1 <= r < |ends| - 1
    ensures ends[r + 1] <= n
  {
    if r >= 0 { EndsRise(ends, n, r); }
  }

  /** Block r has the dependencies of x; `it` is the place of x in it. */
  lemma StandsWithin(vars: seq<int>, ends: seq<nat>, d: map<int, set<int>>, x: int, r: nat, it: nat)
    requires Ladder(vars, ends, d) && r < |ends| - 1 && x in d && Rung(vars, ends, d, r) == d[x] && x !in vars
    requires ends[r] <= it <= ends[r + 1]
    requires forall k :: ends[r] <= k < it ==> vars[k] < x
    requires forall k :: it <= k < ends[r + 1] && k < |vars| ==> vars[k] >= x
    ensures Stands(vars, d, x, it, it)
  {
    var n := |vars|;
    EndsRise(ends, n, r);
    forall k | 0 <= k < n ensures (Before(d, vars[k], x) <==> k < it) && (Before(d, x, vars[k]) <==> k >= it) {
      var i := BlockOf(ends, n, k, |ends| - 1);
      assert d[vars[k]] == Rung(vars, ends, d, i) && vars[k] != x;
      if i < r {
        RungsRise(vars, ends, d, i, r);
        assert ends[i + 1] <= ends[r];
      } else if r < i {
        RungsRise(vars, ends, d, r, i);
        assert ends[r + 1] <= ends[i];
      }
    }
  }

  // ------------------------------------------------------- the two searches

  /** The sorted dependencies of the variables in the map. */
  ghost predicate Lists(lists: map<int, seq<int>>, d: map<int, set<int>>) {
    lists.Keys <= d.Keys && forall v :: v in lists ==> Increasing(lists[v]) && Elements(lists[v]) == d[v]
  }

  /** First variables of the blocks have lists. */
  ghost predicate Searchable(lists: map<int, seq<int>>, vars: seq<int>, ends: seq<nat>) {
    forall i :: 0 <= i < |ends| - 1 ==> ends[i] < |vars| && vars[ends[i]] in lists
  }

  function GetMaximalSubSet(lists: map<int, seq<int>>, vars: seq<int>, ends: seq<nat>, xs: seq<int>, start: nat, end: nat): int
    requires Searchable(lists, vars, ends) && start <= end < |ends|
    decreases end - start
  {
    if start == end then -1
    else
      var mid := (start + end) / 2;
      if Includes(xs, lists[vars[ends[mid]]]) then
        var x := GetMaximalSubSet(lists, vars, ends, xs, mid + 1, end);
        if x < mid then mid else x
      else GetMaximalSubSet(lists, vars, ends, xs, start, mid)
  }

  function GetMinimalSuperSet(lists: map<int, seq<int>>, vars: seq<int>, ends: seq<nat>, xs: seq<int>, start: nat, end: nat): int
    requires Searchable(lists, vars, ends) && start <= end < |ends|
    decreases end - start
  {
    if start == end then |ends| - 1
    else
      var mid := (start + end) / 2;
      if Includes(lists[vars[ends[mid]]], xs) then
        var x := GetMinimalSuperSet(lists, vars, ends, xs, start, mid);
        if mid < x then mid else x
      else GetMinimalSuperSet(lists, vars, ends, xs, mid + 1, end)
  }

  lemma RungList(lists: map<int, seq<int>>, vars: seq<int>, ends: seq<nat>, d: map<int, set<int>>, x: int, i: nat)
    requires Ladder(vars, ends, d) && Lists(lists, d) && Searchable(lists, vars, ends) && x in lists && i < |ends| - 1
    ensures x in d && ends[i] < |vars| && vars[ends[i]] in lists
    ensures Includes(lists[x], lists[vars[ends[i]]]) <==> Rung(vars, ends, d, i) <= d[x]
    ensures Includes(lists[vars[ends[i]]], lists[x]) <==> d[x] <= Rung(vars, ends, d, i)
    ensures Includes(lists[x], lists[vars[ends[i]]]) ==>
              (|lists[x]| == |lists[vars[ends[i]]]| <==> Rung(vars, ends, d, i) == d[x])
  {
    var v := vars[ends[i]];
    ListsCompare(lists[x], lists[v]);
    ListsCompare(lists[v], lists[x]);
  }

  /** The search finds the last block whose dependencies are among those of x. */
  lemma {:induction false} MaximalSubSetFound(lists: map<int, seq<int>>, vars: seq<int>, ends: seq<nat>,
                                              d: map<int, set<int>>, x: int, start: nat, end: nat)
    requires Ladder(vars, ends, d) && Lists(lists, d) && Searchable(lists, vars, ends) && x in lists
    requires start <= end < |ends|
    ensures x in d
    ensures var r := GetMaximalSubSet(lists, vars, ends, lists[x], start, end);
            && (r == -1 || start <= r < end)
            && forall i: nat :: start <= i < end ==> (Rung(vars, ends, d, i) <= d[x] <==> i <= r)
    decreases end - start
  {
    assert x in d;
    hide Ladder, Lists, Searchable, Includes;
    if start < end {
      var mid := (start + end) / 2;
      RungList(lists, vars, ends, d, x, mid);
      if Includes(lists[x], lists[vars[ends[mid]]]) {
        MaximalSubSetFound(lists, vars, ends, d, x, mid + 1, end);
        forall i: nat | start <= i <= mid ensures Rung(vars, ends, d, i) <= d[x] { RungsRise(vars, ends, d, i, mid); }
      } else {
        MaximalSubSetFound(lists, vars, ends, d, x, start, mid);
        forall i: nat | mid <= i < end ensures !(Rung(vars, ends, d, i) <= d[x]) { RungsRise(vars, ends, d, mid, i); }
      }
    }
  }

  /** The search finds the first block whose dependencies contain those of x. */
  lemma {:induction false} MinimalSuperSetFound(lists: map<int, seq<int>>, vars: seq<int>, ends: seq<nat>,
                                                d: map<int, set<int>>, x: int, start: nat, end: nat)
    requires Ladder(vars, ends, d) && Lists(lists, d) && Searchable(lists, vars, ends) && x in lists
    requires start <= end < |ends|
    ensures x in d
    ensures var r := GetMinimalSuperSet(lists, vars, ends, lists[x], start, end);
            && (r == |ends| - 1 || start <= r < end)
            && forall i: nat :: start <= i < end ==> (d[x] <= Rung(vars, ends, d, i) <==> i >= r)
    decreases end - start
  {
    assert x in d;
    hide Ladder, Lists, Searchable, Includes;
    if start < end {
      var mid := (start + end) / 2;
      RungList(lists, vars, ends, d, x, mid);
      if Includes(lists[vars[ends[mid]]], lists[x]) {
        MinimalSuperSetFound(lists, vars, ends, d, x, start, mid);
        forall i: nat | mid <= i < end ensures d[x] <= Rung(vars, ends, d, i) { RungsRise(vars, ends, d, mid, i); }
      } else {
        MinimalSuperSetFound(lists, vars, ends, d, x, mid + 1, end);
        forall i: nat | start <= i <= mid ensures !(d[x] <= Rung(vars, ends, d, i)) { RungsRise(vars, ends, d, i, mid); }
      }
    }
  }
}
