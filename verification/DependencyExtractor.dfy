/** Extended dependencies, by binary search over the quantifier blocks and pairwise. */
module DependencyExtractors {
  import opened Basics
  import opened DependencyTables
  import opened QuantifierPrefixes
  import opened ExtendedOrder

  // ------------------------------------------------------- sorting

  function Insert(x: int, s: seq<int>): seq<int> {
    if s == [] || x <= s[0] then [x] + s else [s[0]] + Insert(x, s[1..])
  }

  /** `std::sort`. */
  function Sort(s: seq<int>): seq<int> {
    if s == [] then [] else Insert(s[0], Sort(s[1..]))
  }

  lemma {:induction false} InsertHas(x: int, s: seq<int>, y: int)
    ensures |Insert(x, s)| == |s| + 1 && (y in Insert(x, s) <==> y == x || y in s)
  {
    if s != [] && x > s[0] {
      InsertHas(x, s[1..], y);
      assert y in s <==> y == s[0] || y in s[1..];
    }
  }

  lemma {:induction false} InsertIncreasing(x: int, s: seq<int>)
    requires Increasing(s) && x !in s
    ensures Increasing(Insert(x, s))
  {
    if s != [] && x > s[0] {
      InsertIncreasing(x, s[1..]);
      forall k | 0 <= k < |Insert(x, s[1..])| ensures s[0] < Insert(x, s[1..])[k] {
        InsertHas(x, s[1..], Insert(x, s[1..])[k]);
      }
      PrependIncreasing(s[0], Insert(x, s[1..]));
    }
  }

  lemma {:induction false} SortHas(s: seq<int>, y: int)
    ensures |Sort(s)| == |s| && (y in Sort(s) <==> y in s)
  {
    if s != [] {
      SortHas(s[1..], y);
      InsertHas(s[0], Sort(s[1..]), y);
      assert y in s <==> y == s[0] || y in s[1..];
    }
  }

  lemma {:induction false} SortIncreasing(s: seq<int>)
    requires Distinct(s)
    ensures Increasing(Sort(s))
  {
    if s != [] {
      SortIncreasing(s[1..]);
      SortHas(s[1..], s[0]);
      InsertIncreasing(s[0], Sort(s[1..]));
    }
  }

  lemma SortFacts(s: seq<int>)
    ensures |Sort(s)| == |s| && Elements(Sort(s)) == Elements(s) && (Distinct(s) ==> Increasing(Sort(s)))
  {
    SortHas(s, 0);
    forall y ensures y in Sort(s) <==> y in s { SortHas(s, y); }
    if Distinct(s) { SortIncreasing(s); }
  }

  // ------------------------------------------------------- pairwise comparison

  /** ext with x appended to the lists of the variables in s. */
  ghost predicate AppendedTo(ext: map<int, seq<int>>, more: map<int, seq<int>>, x: int, s: set<int>) {
    more.Keys == ext.Keys && forall v :: v in ext ==> more[v] == if v in s then ext[v] + [x] else ext[v]
  }

  lemma PairDecides(lists: map<int, seq<int>>, d: map<int, set<int>>, x: int, v: int)
    requires Lists(lists, d) && x in lists && v in lists && x != v
    ensures Includes(lists[x], lists[v]) ==>
              (if |lists[x]| == |lists[v]| then (if x < v then Before(d, x, v) && !Before(d, v, x)
                                                 else Before(d, v, x) && !Before(d, x, v))
               else Before(d, v, x) && !Before(d, x, v))
    ensures !Includes(lists[x], lists[v]) ==> !Before(d, v, x) && (Includes(lists[v], lists[x]) <==> Before(d, x, v))
  {
    ListsCompare(lists[x], lists[v]);
    ListsCompare(lists[v], lists[x]);
  }

  lemma GainsNext(ext: map<int, seq<int>>, one: map<int, seq<int>>, two: map<int, seq<int>>, d: map<int, set<int>>,
                  x: int, s: set<int>, v: int)
    requires Gained(ext, one, d, x, s) && v !in s && v != x && x in ext && v in ext
    requires if Before(d, v, x) then two == one[x := one[x] + [v]] else if Before(d, x, v) then two == one[v := one[v] + [x]]
             else two == one
    requires !(Before(d, v, x) && Before(d, x, v))
    ensures Gained(ext, two, d, x, s + {v})
  {
    hide Before;
    ElementsAppended(one[x], v);
    ElementsAppended(one[v], x);
    forall u | u in ext ensures Elements(two[u]) == Elements(ext[u]) + Gains(d, x, s + {v}, u) {
      assert Elements(one[u]) == Elements(ext[u]) + Gains(d, x, s, u);
      if u == x {
        assert Gains(d, x, s + {v}, x) == Gains(d, x, s, x) + (if Before(d, v, x) then {v} else {});
      }
    }
  }

  /** Compare x with every variable looked at before. */
  method CheckExplicitDependencies(lists: map<int, seq<int>>, ghost d: map<int, set<int>>, x: int, processed: seq<int>,
                                   ext: map<int, seq<int>>) returns (more: map<int, seq<int>>)
    requires Lists(lists, d) && x in lists && x in ext && x !in processed && Distinct(processed)
    requires forall v :: v in processed ==> v in lists && v in ext
    ensures Gained(ext, more, d, x, Elements(processed))
  {
    hide Lists, Gained, Before, Includes;
    more := ext;
    GainedNothing(ext, d, x);
    for i := 0 to |processed|
      invariant more.Keys == ext.Keys && Gained(ext, more, d, x, Elements(processed[..i]))
    {
      var v := processed[i];
      ghost var was := more;
      PairDecides(lists, d, x, v);
      if Includes(lists[x], lists[v]) {
        if |lists[x]| == |lists[v]| {
          if x < v {
            more := more[v := more[v] + [x]];
          } else {
            more := more[x := more[x] + [v]];
          }
        } else {
          more := more[x := more[x] + [v]];
        }
      } else if Includes(lists[v], lists[x]) {
        more := more[v := more[v] + [x]];
      }
      NewElement(processed, i);
      GainsNext(ext, was, more, d, x, Elements(processed[..i]), v);
    }
    assert processed[..|processed|] == processed;
  }

  lemma GainedNothing(ext: map<int, seq<int>>, d: map<int, set<int>>, x: int)
    ensures Gained(ext, ext, d, x, Elements([]))
  {
    assert Gains(d, x, Elements([]), x) == {};
  }

  lemma NewElement(s: seq<int>, i: nat)
    requires Distinct(s) && i < |s|
    ensures s[i] !in Elements(s[..i]) && Elements(s[..i + 1]) == Elements(s[..i]) + {s[i]} && s[i] in s
  {
    assert s[..i + 1] == s[..i] + [s[i]];
    ElementsAppended(s[..i], s[i]);
  }

  /** The simple form: every pair of variables is compared. `order` is the order of the keys. */
  method ComputeExtendedDependencies(dependencies: map<int, seq<int>>, order: seq<int>) returns (ext: map<int, seq<int>>)
    requires forall v :: v in dependencies ==> Distinct(dependencies[v])
    requires Elements(order) == dependencies.Keys && Distinct(order)
    ensures IsExtended(ext, ScopesOf(dependencies))
  {
    hide Lists, Gained, Before, IsExtended, Pairwise, Sort, Elements, Distinct;
    ghost var d := ScopesOf(dependencies);
    var lists: map<int, seq<int>> := map[];
    ext := dependencies;
    NoLists(d);
    assert order[..0] == [];
    PairwiseStart(dependencies);
    for i := 0 to |order|
      invariant lists.Keys == Elements(order[..i]) && ext.Keys == d.Keys && Lists(lists, d)
      invariant Pairwise(dependencies, ext, Elements(order[..i]))
    {
      var x := order[i];
      NewElement(order, i);
      PrefixIn(order, i);
      SortFacts(dependencies[x]);
      ListsNext(lists, d, x, Sort(dependencies[x]));
      lists := lists[x := Sort(dependencies[x])];
      var more := CheckExplicitDependencies(lists, d, x, order[..i], ext);
      PairwiseNext(dependencies, ext, more, Elements(order[..i]), x);
      GainedKeys(ext, more, d, x, Elements(order[..i]));
      ext := more;
    }
    assert order[..|order|] == order;
    PairwiseAll(dependencies, ext);
  }

  lemma PrefixIn(s: seq<int>, i: nat)
    requires i < |s|
    ensures s[i] in Elements(s) && forall v :: v in s[..i] ==> v in Elements(s[..i]) && v in Elements(s)
    ensures Distinct(s) ==> Distinct(s[..i]) && s[i] !in s[..i]
  {}

  lemma NoLists(d: map<int, set<int>>)
    ensures Lists(map[], d) && Elements([]) == {}
  {}

  ghost function ScopesOf(dependencies: map<int, seq<int>>): map<int, set<int>> {
    map v | v in dependencies :: Elements(dependencies[v])
  }

  lemma ListsNext(lists: map<int, seq<int>>, d: map<int, set<int>>, x: int, list: seq<int>)
    requires Lists(lists, d) && x in d && Elements(list) == d[x] && Increasing(list)
    ensures Lists(lists[x := list], d)
  {}

  /** The pairs among the variables in s have been compared. */
  ghost predicate Pairwise(dependencies: map<int, seq<int>>, ext: map<int, seq<int>>, s: set<int>) {
    var d := ScopesOf(dependencies);
    && ext.Keys == d.Keys
    && forall v :: v in d ==> Elements(ext[v]) == d[v] + (if v in s then Lower(d, v) * s else {})
  }

  lemma GainedKeys(ext: map<int, seq<int>>, more: map<int, seq<int>>, d: map<int, set<int>>, x: int, s: set<int>)
    requires Gained(ext, more, d, x, s)
    ensures more.Keys == ext.Keys
  {}

  lemma PairwiseStart(dependencies: map<int, seq<int>>)
    ensures Pairwise(dependencies, dependencies, Elements([]))
  {}

  lemma PairwiseNext(dependencies: map<int, seq<int>>, ext: map<int, seq<int>>, more: map<int, seq<int>>, s: set<int>, x: int)
    requires Pairwise(dependencies, ext, s) && Gained(ext, more, ScopesOf(dependencies), x, s) && x !in s
    ensures Pairwise(dependencies, more, s + {x})
  {
    var d := ScopesOf(dependencies);
    forall v | v in d ensures Elements(more[v]) == d[v] + (if v in s + {x} then Lower(d, v) * (s + {x}) else {}) {
      assert Elements(more[v]) == Elements(ext[v]) + Gains(d, x, s, v);
      assert v == x ==> Gains(d, x, s, x) == Lower(d, x) * (s + {x});
      assert v in s ==> Lower(d, v) * (s + {x}) == Lower(d, v) * s + Gains(d, x, s, v);
    }
  }

  lemma PairwiseAll(dependencies: map<int, seq<int>>, ext: map<int, seq<int>>)
    requires Pairwise(dependencies, ext, dependencies.Keys)
    ensures IsExtended(ext, ScopesOf(dependencies))
  {
    var d := ScopesOf(dependencies);
    forall v | v in d ensures Lower(d, v) * dependencies.Keys == Lower(d, v) {}
  }

  // ------------------------------------------------------- comparison with the blocks

  /** vars[..below] go to x, and x goes to the variables from `above` on. */
  ghost predicate Shared(ext: map<int, seq<int>>, more: map<int, seq<int>>, x: int, vars: seq<int>, below: nat, above: nat)
    requires below <= |vars| && above <= |vars|
  {
    more.Keys == ext.Keys && forall v :: v in ext ==>
      Elements(more[v]) == Elements(ext[v]) + (if v == x then Elements(vars[..below])
                                               else if v in vars[above..] then {x} else {})
  }

  lemma SharedIsGained(ext: map<int, seq<int>>, more: map<int, seq<int>>, d: map<int, set<int>>, x: int,
                       vars: seq<int>, below: nat, above: nat)
    requires below <= |vars| && above <= |vars| && Shared(ext, more, x, vars, below, above)
    requires Stands(vars, d, x, below, above) && x !in vars && Distinct(vars)
    ensures Gained(ext, more, d, x, Elements(vars))
  {
    forall w ensures w in vars[..below] <==> w in vars && Before(d, w, x) {
      if w in vars {
        var k :| 0 <= k < |vars| && vars[k] == w;
        if k < below { assert vars[..below][k] == w; }
      }
    }
    forall v ensures v in vars[above..] <==> v in vars && Before(d, x, v) {
      if v in vars {
        var k :| 0 <= k < |vars| && vars[k] == v;
        if k >= above { assert vars[above..][k - above] == v; }
      }
    }
    assert forall w :: w in vars <==> w in Elements(vars);
    hide Before;
    assert Elements(vars[..below]) == Gains(d, x, Elements(vars), x);
  }

  ghost predicate HasAll(ext: map<int, seq<int>>, vars: seq<int>) {
    forall k :: 0 <= k < |vars| ==> vars[k] in ext
  }

  /** The first position from lo on with a name that is not smaller: `std::lower_bound`. */
  method LowerBound(vars: seq<int>, lo: nat, hi: nat, x: int) returns (it: nat)
    requires lo <= hi <= |vars| && forall k, l :: lo <= k < l < hi ==> vars[k] < vars[l]
    ensures lo <= it <= hi
    ensures forall k :: lo <= k < it ==> vars[k] < x
    ensures forall k :: it <= k < hi ==> vars[k] >= x
  {
    it := lo;
    while it < hi && vars[it] < x
      invariant lo <= it <= hi && forall k :: lo <= k < it ==> vars[k] < x
    {
      it := it + 1;
    }
  }

  /** Append x to the lists of the variables at positions lo to hi. */
  method AppendTo(ext: map<int, seq<int>>, vars: seq<int>, lo: nat, hi: nat, x: int) returns (more: map<int, seq<int>>)
    requires lo <= hi <= |vars| && Distinct(vars) && HasAll(ext, vars)
    ensures AppendedTo(ext, more, x, Elements(vars[lo..hi]))
  {
    hide AppendedTo, Distinct, Elements;
    more := ext;
    AppendedNone(ext, x, vars, lo);
    for k := lo to hi
      invariant more.Keys == ext.Keys && AppendedTo(ext, more, x, Elements(vars[lo..k]))
    {
      AppendedOne(ext, more, x, vars, lo, k);
      more := more[vars[k] := more[vars[k]] + [x]];
    }
  }

  lemma AppendedNone(ext: map<int, seq<int>>, x: int, vars: seq<int>, lo: nat)
    requires lo <= |vars|
    ensures AppendedTo(ext, ext, x, Elements(vars[lo..lo]))
  {}

  lemma AppendedOne(ext: map<int, seq<int>>, more: map<int, seq<int>>, x: int, vars: seq<int>, lo: nat, k: nat)
    requires lo <= k < |vars| && Distinct(vars) && vars[k] in more && AppendedTo(ext, more, x, Elements(vars[lo..k]))
    ensures AppendedTo(ext, more[vars[k] := more[vars[k]] + [x]], x, Elements(vars[lo..k + 1]))
  {
    assert vars[lo..k + 1] == vars[lo..k] + [vars[k]];
    ElementsAppended(vars[lo..k], vars[k]);
    assert vars[k] !in vars[lo..k];
  }

  // ------------------------------------------------------- sorting within blocks

  function SortRange(s: seq<int>, lo: nat, hi: nat): seq<int>
    requires lo <= hi <= |s|
  {
    s[..lo] + Sort(s[lo..hi]) + s[hi..]
  }

  ghost predicate Reordered(s: seq<int>, r: seq<int>) {
    |r| == |s| && Elements(r) == Elements(s) && (Distinct(s) ==> Distinct(r))
  }

  ghost predicate SortedBlock(s: seq<int>, r: seq<int>, lo: nat, hi: nat) {
    lo <= hi <= |s| == |r| && Increasing(r[lo..hi]) && Elements(r[lo..hi]) == Elements(s[lo..hi])
  }

  /** The first i blocks are sorted, the others as they were. */
  ghost predicate BlocksSorted(s: seq<int>, r: seq<int>, ends: seq<nat>, i: nat) {
    && Boundaries(ends, |s|) && i < |ends| && Reordered(s, r) && Distinct(r)
    && (forall k :: ends[i] <= k < |s| ==> r[k] == s[k])
    && (forall j: nat :: j < i ==> SortedBlock(s, r, ends[j], ends[j + 1]))
  }

  /** The universals of the first blocks are sorted; whatever ends later has the same elements as before. */
  ghost predicate UniversalsSorted(s: seq<int>, r: seq<int>, ends: seq<nat>, i: nat) {
    && Boundaries(ends, |s|) && |r| == |s| && Distinct(r) && i < |ends| && ends[i] <= |r| && Increasing(r[..ends[i]])
    && forall j :: i <= j < |ends| ==> ends[j] <= |r| && Elements(r[..ends[j]]) == Elements(s[..ends[j]])
  }

  lemma RangeSorted(s: seq<int>, lo: nat, hi: nat)
    requires lo <= hi <= |s| && Distinct(s)
    ensures var r := SortRange(s, lo, hi);
            && |r| == |s| && r[..lo] == s[..lo] && r[hi..] == s[hi..] && Increasing(r[lo..hi])
            && Elements(r[lo..hi]) == Elements(s[lo..hi]) && Reordered(s, r)
  {
    var m := s[lo..hi];
    SortFacts(m);
    assert Distinct(m);
    var r := SortRange(s, lo, hi);
    assert r[lo..hi] == Sort(m);
    assert s == s[..lo] + m + s[hi..];
    hide Sort;
    ConcatElements(s[..lo], m);
    ConcatElements(s[..lo] + m, s[hi..]);
    ConcatElements(s[..lo], Sort(m));
    ConcatElements(s[..lo] + Sort(m), s[hi..]);
    RangeDistinct(s, lo, hi, Sort(m));
  }

  lemma RangeDistinct(s: seq<int>, lo: nat, hi: nat, m: seq<int>)
    requires lo <= hi <= |s| && Distinct(s) && |m| == hi - lo && Increasing(m) && Elements(m) == Elements(s[lo..hi])
    ensures Distinct(s[..lo] + m + s[hi..])
  {
    var r := s[..lo] + m + s[hi..];
    forall k | lo <= k < hi ensures r[k] in s[lo..hi] { assert r[k] == m[k - lo] && m[k - lo] in Elements(m); }
    forall i, j | 0 <= i < j < |r| ensures r[i] != r[j] {
      if lo <= i < hi && lo <= j < hi {
        assert m[i - lo] < m[j - lo];
      } else if lo <= i < hi {
        assert r[i] in s[lo..hi] && r[j] == s[j];
      } else if lo <= j < hi {
        assert r[j] in s[lo..hi] && r[i] == s[i];
      }
    }
  }

  lemma SortedStart(p: Prefix)
    requires Blocks(p) && Distinct(p.existentials) && Distinct(p.universals)
    ensures BlocksSorted(p.existentials, p.existentials, p.existentialEnds, 0)
    ensures UniversalsSorted(p.universals, p.universals, p.universalEnds, 0)
  {
    forall j | 0 <= j < |p.universalEnds| ensures p.universalEnds[j] <= |p.universals| {
      EndsOrdered(p.universalEnds, |p.universals|, j, |p.universalEnds| - 1);
    }
  }

  lemma FirstAndLast(p: Prefix)
    requires Blocks(p)
    ensures |p.existentialEnds| >= 1 && p.existentialEnds[0] == 0
    ensures p.existentialEnds[|p.existentialEnds| - 1] == |p.existentials| && |p.universalEnds| >= 1
  {}

  lemma SortedSize(p: Prefix, r: seq<int>, i: nat)
    requires BlocksSorted(p.existentials, r, p.existentialEnds, i)
    ensures |r| == |p.existentials| && Boundaries(p.existentialEnds, |r|) && Distinct(r)
  {}

  /** Sorting the next block keeps the others. */
  lemma BlockSortedNext(p: Prefix, r: seq<int>, i: nat)
    requires Blocks(p) && BlocksSorted(p.existentials, r, p.existentialEnds, i) && i + 1 < |p.existentialEnds|
    ensures var lo, hi := p.existentialEnds[i], p.existentialEnds[i + 1];
            lo <= hi <= |r| && BlocksSorted(p.existentials, SortRange(r, lo, hi), p.existentialEnds, i + 1)
  {
    var s, ends := p.existentials, p.existentialEnds;
    var lo, hi := ends[i], ends[i + 1];
    EndsRise(ends, |s|, i);
    RangeSorted(r, lo, hi);
    var q := SortRange(r, lo, hi);
    assert r[lo..hi] == s[lo..hi];
    hide SortRange, Distinct, Increasing, Elements, Alternating;
    forall k | hi <= k < |s| ensures q[k] == s[k] { assert q[k] == q[hi..][k - hi] && r[k] == r[hi..][k - hi]; }
    forall j: nat | j < i + 1 ensures SortedBlock(s, q, ends[j], ends[j + 1]) {
      if j < i {
        assert SortedBlock(s, r, ends[j], ends[j + 1]);
        EndsOrdered(ends, |s|, j + 1, i);
        EarlierBlock(s, r, q, ends[j], ends[j + 1], lo);
      }
    }
    hide SortedBlock, Reordered;
  }

  lemma EarlierBlock(s: seq<int>, r: seq<int>, q: seq<int>, lo: nat, hi: nat, n: nat)
    requires SortedBlock(s, r, lo, hi) && hi <= n <= |r| == |q| && q[..n] == r[..n]
    ensures SortedBlock(s, q, lo, hi)
  {
    assert q[lo..hi] == q[..n][lo..hi] && r[lo..hi] == r[..n][lo..hi];
  }

  lemma UniversalsNext(p: Prefix, r: seq<int>, i: nat)
    requires Blocks(p) && UniversalsSorted(p.universals, r, p.universalEnds, i) && i + 1 < |p.universalEnds|
    ensures p.universalEnds[i + 1] <= |r|
    ensures UniversalsSorted(p.universals, SortRange(r, 0, p.universalEnds[i + 1]), p.universalEnds, i + 1)
  {
    var s, ends := p.universals, p.universalEnds;
    var hi := ends[i + 1];
    EndsRise(ends, |s|, i);
    RangeSorted(r, 0, hi);
    var q := SortRange(r, 0, hi);
    hide SortRange, Distinct, Increasing, Alternating;
    assert q[0..hi] == q[..hi] && r[0..hi] == r[..hi];
    forall j | i + 1 <= j < |ends| ensures ends[j] <= |q| && Elements(q[..ends[j]]) == Elements(s[..ends[j]]) {
      EndsOrdered(ends, |s|, i + 1, j);
      assert Elements(r[..ends[j]]) == Elements(s[..ends[j]]);
      assert q[..ends[j]] == q[..hi] + q[hi..][..ends[j] - hi] && r[..ends[j]] == r[..hi] + r[hi..][..ends[j] - hi];
      ConcatElements(q[..hi], q[hi..][..ends[j] - hi]);
      ConcatElements(r[..hi], r[hi..][..ends[j] - hi]);
    }
  }

  lemma FirstUniversalBlock(p: Prefix)
    requires Blocks(p) && p.universals != [] && Distinct(p.universals) && Distinct(p.existentials)
    ensures |p.universalEnds| > 1 && p.universalEnds[1] <= |p.universals|
    ensures UniversalsSorted(p.universals, SortRange(p.universals, 0, p.universalEnds[1]), p.universalEnds, 1)
  {
    EmptyHasNoBlocks(p.universalEnds, |p.universals|);
    SortedStart(p);
    UniversalsNext(p, p.universals, 0);
  }

  /** The first n existentials have their entries. */
  ghost predicate Entered(vars: seq<int>, n: nat, d: map<int, set<int>>, lists: map<int, seq<int>>, ext: map<int, seq<int>>) {
    && n <= |vars| && Lists(lists, d) && lists.Keys == ext.Keys == Elements(vars[..n])
    && forall k :: 0 <= k < n ==> EntryAt(vars, k, d, ext)
  }

  /** The entry of existential k: its scope and the existentials before it. */
  ghost predicate EntryAt(vars: seq<int>, k: nat, d: map<int, set<int>>, ext: map<int, seq<int>>)
    requires k < |vars|
  {
    vars[k] in ext && vars[k] in d && Elements(ext[vars[k]]) == d[vars[k]] + Elements(vars[..k])
  }

  lemma EnteredStart(vars: seq<int>, d: map<int, set<int>>)
    ensures Entered(vars, 0, d, map[], map[])
  {}

  lemma EnteredNext(vars: seq<int>, n: nat, d: map<int, set<int>>, lists: map<int, seq<int>>, ext: map<int, seq<int>>,
                    deps: seq<int>)
    requires Entered(vars, n, d, lists, ext) && n < |vars| && Distinct(vars) && Increasing(deps)
    requires vars[n] in d && d[vars[n]] == Elements(deps)
    ensures Entered(vars, n + 1, d, lists[vars[n] := deps], ext[vars[n] := deps][vars[n] := deps + vars[..n]])
  {
    NewElement(vars, n);
    ListsNext(lists, d, vars[n], deps);
    hide Lists, Increasing, Elements, Distinct;
    var more := ext[vars[n] := deps][vars[n] := deps + vars[..n]];
    forall k | 0 <= k < n + 1 ensures EntryAt(vars, k, d, more) {
      EntryNext(vars, n, k, d, lists, ext, deps);
    }
  }

  lemma EntryNext(vars: seq<int>, n: nat, k: nat, d: map<int, set<int>>, lists: map<int, seq<int>>,
                  ext: map<int, seq<int>>, deps: seq<int>)
    requires Entered(vars, n, d, lists, ext) && k <= n < |vars| && Distinct(vars)
    requires vars[n] in d && d[vars[n]] == Elements(deps)
    ensures EntryAt(vars, k, d, ext[vars[n] := deps][vars[n] := deps + vars[..n]])
  {
    hide Lists, Elements;
    ConcatElements(deps, vars[..n]);
    if k < n { assert EntryAt(vars, k, d, ext) && vars[k] != vars[n]; }
  }

  /** Sorting a later block does not touch the entries. */
  lemma EnteredSorted(p: Prefix, r: seq<int>, i: nat, d: map<int, set<int>>, lists: map<int, seq<int>>, ext: map<int, seq<int>>)
    requires Blocks(p) && BlocksSorted(p.existentials, r, p.existentialEnds, i) && i + 1 < |p.existentialEnds|
    requires Entered(r, p.existentialEnds[i], d, lists, ext)
    ensures var lo, hi := p.existentialEnds[i], p.existentialEnds[i + 1];
            lo <= hi <= |r| && Entered(SortRange(r, lo, hi), lo, d, lists, ext)
  {
    var lo, hi := p.existentialEnds[i], p.existentialEnds[i + 1];
    EndsRise(p.existentialEnds, |r|, i);
    RangeSorted(r, lo, hi);
    hide *;
    EnteredSame(r, SortRange(r, lo, hi), lo, d, lists, ext);
  }

  lemma EnteredSame(r: seq<int>, q: seq<int>, n: nat, d: map<int, set<int>>, lists: map<int, seq<int>>, ext: map<int, seq<int>>)
    requires Entered(r, n, d, lists, ext) && n <= |q| && n <= |r| && q[..n] == r[..n]
    ensures Entered(q, n, d, lists, ext)
  {
    hide Lists;
    forall k | 0 <= k < n ensures EntryAt(q, k, d, ext) {
      assert q[k] == q[..n][k] && r[k] == r[..n][k] && EntryAt(r, k, d, ext);
      assert q[..k] == q[..n][..k] && r[..k] == r[..n][..k];
    }
  }

  /** The universals before block i are the scope of its existentials. */
  lemma DepsOfBlock(p: Prefix, scope: map<int, set<int>>, r: seq<int>, u: seq<int>, i: nat, index: nat, d: map<int, set<int>>)
    requires Blocks(p) && Scoped(p, scope) && BlocksSorted(p.existentials, r, p.existentialEnds, i + 1)
    requires UniversalsSorted(p.universals, u, p.universalEnds, index) && index == if p.firstUniversal then i + 1 else i
    requires Agrees(scope, d)
    ensures var lo, hi := p.existentialEnds[i], p.existentialEnds[i + 1];
            && lo <= hi <= |r| && Distinct(r) && p.universalEnds[index] <= |u| && Increasing(u[..p.universalEnds[index]])
            && forall k :: lo <= k < hi ==> r[k] in d && d[r[k]] == Elements(u[..p.universalEnds[index]])
  {
    var lo, hi := p.existentialEnds[i], p.existentialEnds[i + 1];
    assert SortedBlock(p.existentials, r, lo, hi);
    forall k | lo <= k < hi ensures r[k] in d && d[r[k]] == Elements(u[..p.universalEnds[index]]) {
      SortedScope(p, scope, r, i, k);
      AgreesAt(scope, d, r[k]);
      assert Preceding(p, i) == p.universalEnds[index];
    }
  }

  ghost predicate Agrees(scope: map<int, set<int>>, d: map<int, set<int>>) {
    forall v :: v in scope ==> v in d && d[v] == scope[v]
  }

  lemma AgreesAt(scope: map<int, set<int>>, d: map<int, set<int>>, v: int)
    requires Agrees(scope, d) && v in scope
    ensures v in d && d[v] == scope[v]
  {}

  lemma SortedScope(p: Prefix, scope: map<int, set<int>>, r: seq<int>, i: nat, k: nat)
    requires Blocks(p) && Scoped(p, scope) && i + 1 < |p.existentialEnds|
    requires SortedBlock(p.existentials, r, p.existentialEnds[i], p.existentialEnds[i + 1])
    requires p.existentialEnds[i] <= k < p.existentialEnds[i + 1]
    ensures k < |r| && r[k] in scope && (if p.firstUniversal then i + 1 else i) < |p.universalEnds|
    ensures Preceding(p, i) <= |p.universals| && scope[r[k]] == Elements(p.universals[..Preceding(p, i)])
  {
    var lo, hi, s := p.existentialEnds[i], p.existentialEnds[i + 1], p.existentials;
    hide Blocks;
    assert r[k] == r[lo..hi][k - lo] && r[k] in Elements(r[lo..hi]);
    assert r[k] in s[lo..hi];
    var m :| 0 <= m < |s[lo..hi]| && s[lo..hi][m] == r[k];
    assert ScopedAt(p, scope, i, lo + m) && s[lo + m] == r[k];
  }

  lemma IndexFits(p: Prefix, i: nat)
    requires Blocks(p) && i + 1 < |p.existentialEnds|
    ensures (if p.firstUniversal then i + 1 else i) < |p.universalEnds|
    ensures i + 2 < |p.existentialEnds| ==> (if p.firstUniversal then i + 2 else i + 1) < |p.universalEnds|
  {}

  /** Sorted blocks form a ladder. */
  lemma BlocksLadder(p: Prefix, scope: map<int, set<int>>, r: seq<int>, d: map<int, set<int>>)
    requires Blocks(p) && Scoped(p, scope) && Distinct(p.universals)
    requires BlocksSorted(p.existentials, r, p.existentialEnds, |p.existentialEnds| - 1)
    requires Agrees(scope, d)
    ensures Ladder(r, p.existentialEnds, d) && Reordered(p.existentials, r)
  {
    SortedSize(p, r, |p.existentialEnds| - 1);
    hide Scoped, Reordered, Distinct;
    forall i: nat, k: nat | i + 1 < |p.existentialEnds| && p.existentialEnds[i] <= k < p.existentialEnds[i + 1]
      ensures k < |r| && RungAt(p, r, d, i, k)
    {
      assert SortedBlock(p.existentials, r, p.existentialEnds[i], p.existentialEnds[i + 1]);
      SortedScope(p, scope, r, i, k);
      AgreesAt(scope, d, r[k]);
    }
    hide RungAt;
    assert AllRungs(p, r, d);
    RungsInOrder(p, r, d);
    RungsSorted(p, r);
  }

  ghost predicate AllRungs(p: Prefix, r: seq<int>, d: map<int, set<int>>) {
    forall i: nat, k: nat :: i + 1 < |p.existentialEnds| && p.existentialEnds[i] <= k < p.existentialEnds[i + 1] ==>
      k < |r| && RungAt(p, r, d, i, k)
  }

  lemma RungsSorted(p: Prefix, r: seq<int>)
    requires Blocks(p) && BlocksSorted(p.existentials, r, p.existentialEnds, |p.existentialEnds| - 1)
    ensures |r| == |p.existentials| && NamesRise(r, p.existentialEnds)
  {
    var ends := p.existentialEnds;
    hide Blocks, Distinct;
    forall i, k, l | 0 <= i < |ends| - 1 && ends[i] <= k < l < ends[i + 1] ensures r[k] < r[l] {
      assert SortedBlock(p.existentials, r, ends[i], ends[i + 1]);
      assert r[k] == r[ends[i]..ends[i + 1]][k - ends[i]] && r[l] == r[ends[i]..ends[i + 1]][l - ends[i]];
    }
  }

  lemma RungsInOrder(p: Prefix, r: seq<int>, d: map<int, set<int>>)
    requires Blocks(p) && Distinct(p.universals) && AllRungs(p, r, d) && |r| == |p.existentials|
    ensures InScopes(r, d) && SameWithin(r, p.existentialEnds, d) && BlocksGrow(r, p.existentialEnds, d)
  {
    var ends, n := p.existentialEnds, |p.existentialEnds| - 1;
    forall k | 0 <= k < |r| ensures r[k] in d {
      var i := BlockOf(ends, |r|, k, n);
      assert RungAt(p, r, d, i, k);
    }
    forall i, k | 0 <= i < n && ends[i] <= k < ends[i + 1] ensures d[r[k]] == d[r[ends[i]]] {
      EndsRise(ends, |r|, i);
      assert RungAt(p, r, d, i, k) && RungAt(p, r, d, i, ends[i]);
    }
    forall i, j | 0 <= i < j < n ensures d[r[ends[i]]] < d[r[ends[j]]] {
      EndsRise(ends, |r|, i);
      EndsRise(ends, |r|, j);
      assert RungAt(p, r, d, i, ends[i]) && RungAt(p, r, d, j, ends[j]);
      PrefixesGrow(p, i, j);
    }
  }

  ghost predicate RungAt(p: Prefix, r: seq<int>, d: map<int, set<int>>, i: nat, k: nat)
    requires k < |r|
  {
    && (if p.firstUniversal then i + 1 else i) < |p.universalEnds| && Preceding(p, i) <= |p.universals|
    && r[k] in d && d[r[k]] == Elements(p.universals[..Preceding(p, i)])
  }

  lemma PrefixesGrow(p: Prefix, i: nat, j: nat)
    requires Blocks(p) && Distinct(p.universals) && i < j && (if p.firstUniversal then j + 1 else j) < |p.universalEnds|
    ensures Preceding(p, i) < Preceding(p, j) <= |p.universals|
    ensures Elements(p.universals[..Preceding(p, i)]) < Elements(p.universals[..Preceding(p, j)])
  {
    var u, a, b := p.universals, Preceding(p, i), Preceding(p, j);
    EndsOrdered(p.universalEnds, |u|, if p.firstUniversal then j + 1 else j, |p.universalEnds| - 1);
    assert u[..b] == u[..a] + u[a..b];
    ConcatElements(u[..a], u[a..b]);
    assert u[a] == u[a..b][0] && u[a] in Elements(u[..b]) && u[a] !in u[..a];
  }

  /** The entries are the extended dependencies among the existentials of the blocks. */
  lemma EnteredCovers(vars: seq<int>, ends: seq<nat>, d: map<int, set<int>>, lists: map<int, seq<int>>, ext: map<int, seq<int>>)
    requires Ladder(vars, ends, d) && Entered(vars, |vars|, d, lists, ext)
    ensures Covers(ext, d, Elements(vars))
  {
    assert vars[..|vars|] == vars;
    forall v | v in Elements(vars) ensures v in d && Elements(ext[v]) == d[v] + Lower(d, v) * Elements(vars) {
      var k :| 0 <= k < |vars| && vars[k] == v;
      assert EntryAt(vars, k, d, ext);
      LowerIsPrefix(vars, ends, d, k);
    }
  }

  lemma LowerIsPrefix(vars: seq<int>, ends: seq<nat>, d: map<int, set<int>>, k: nat)
    requires Ladder(vars, ends, d) && k < |vars|
    ensures Lower(d, vars[k]) * Elements(vars) == Elements(vars[..k])
  {
    forall w | w in Lower(d, vars[k]) * Elements(vars) ensures w in Elements(vars[..k]) {
      var l :| 0 <= l < |vars| && vars[l] == w;
      if k < l { LadderOrder(vars, ends, d, k, l); }
      assert vars[..k][l] == w;
    }
    forall w | w in Elements(vars[..k]) ensures w in Lower(d, vars[k]) * Elements(vars) {
      var l :| 0 <= l < k && vars[l] == w;
      LadderOrder(vars, ends, d, l, k);
    }
  }

  // ------------------------------------------------------- all existentials

  ghost function AllScopes(scope: map<int, set<int>>, explicit: map<int, seq<int>>): map<int, set<int>> {
    scope + ScopesOf(explicit)
  }

  /** Explicit dependencies are for other variables and name universals, each once. */
  ghost predicate ExplicitFit(explicit: map<int, seq<int>>, universals: seq<int>, existentials: seq<int>) {
    && explicit.Keys !! Elements(existentials)
    && forall v :: v in explicit ==> Distinct(explicit[v]) && Elements(explicit[v]) <= Elements(universals)
  }

  lemma ScopesFit(p: Prefix, scope: map<int, set<int>>, explicit: map<int, seq<int>>, order: seq<int>)
    requires Blocks(p) && Scoped(p, scope) && scope.Keys == Elements(p.existentials)
    requires ExplicitFit(explicit, p.universals, p.existentials) && Elements(order) == explicit.Keys
    ensures var d := AllScopes(scope, explicit);
            && d.Keys == Elements(p.existentials) + Elements(order) && Agrees(scope, d)
            && (forall v :: v in explicit ==> v in d && d[v] == Elements(explicit[v]) && Distinct(explicit[v]))
            && Elements(p.existentials) !! Elements(order)
            && (p.universals == [] ==> forall v :: v in d ==> d[v] == {})
  {
    var d := AllScopes(scope, explicit);
    if p.universals == [] {
      forall v | v in d ensures d[v] == {} {
        if v in scope {
          NoScope(p, scope, v);
        } else {
          assert Elements(explicit[v]) <= Elements(p.universals) == {};
        }
      }
    }
  }

  lemma NoScope(p: Prefix, scope: map<int, set<int>>, v: int)
    requires Blocks(p) && Scoped(p, scope) && p.universals == [] && v in Elements(p.existentials)
    ensures v in scope && scope[v] == {}
  {
    var k :| 0 <= k < |p.existentials| && p.existentials[k] == v;
    var i := BlockOf(p.existentialEnds, |p.existentials|, k, |p.existentialEnds| - 1);
    assert ScopedAt(p, scope, i, k);
  }

  lemma SortedNames(s: seq<int>, order: seq<int>, all: seq<int>, d: map<int, set<int>>)
    requires all == Sort(s + order) && d.Keys == Elements(s) + Elements(order) && forall v :: v in d ==> d[v] == {}
    requires Distinct(s) && Distinct(order) && Elements(s) !! Elements(order)
    ensures Increasing(all) && Distinct(all) && Elements(all) == d.Keys && Increasing([])
    ensures forall k :: 0 <= k < |all| ==> all[k] in d && d[all[k]] == Elements([])
  {
    DistinctConcat(s, order);
    ConcatElements(s, order);
    SortFacts(s + order);
    hide Sort;
    forall k | 0 <= k < |all| ensures all[k] in d { assert all[k] in Elements(all); }
  }

  lemma UpdateOnce(m: map<int, seq<int>>, v: int, s: seq<int>)
    ensures m[v := []][v := [] + s] == m[v := s]
  {
    assert [] + s == s;
  }

  lemma NextPrefix(s: seq<int>, k: nat)
    requires k < |s|
    ensures s[..k + 1] == s[..k] + [s[k]]
  {}

  lemma SetSums(a: set<int>, b: set<int>, x: int)
    ensures a + {} == a && a + b + {x} == a + (b + {x})
  {}

  lemma NamesExtended(all: seq<int>, d: map<int, set<int>>, lists: map<int, seq<int>>, ext: map<int, seq<int>>)
    requires Increasing(all) && Elements(all) == d.Keys && (forall v :: v in d ==> d[v] == {})
    requires Entered(all, |all|, d, lists, ext)
    ensures IsExtended(ext, d) && Lists(lists, d) && lists.Keys == d.Keys
  {
    hide Lists, Lower, Before, Increasing;
    assert all[..|all|] == all;
    forall v | v in d ensures Elements(ext[v]) == d[v] + Lower(d, v) {
      assert v in Elements(all);
      var k :| 0 <= k < |all| && all[k] == v;
      assert EntryAt(all, k, d, ext);
      LowerNoScopes(all, d, k);
    }
  }

  /** Without scopes the existentials before one are those with smaller names. */
  lemma LowerNoScopes(all: seq<int>, d: map<int, set<int>>, k: nat)
    requires Increasing(all) && k < |all| && Elements(all) == d.Keys && (forall v :: v in d ==> d[v] == {})
    ensures Lower(d, all[k]) == Elements(all[..k])
  {
    forall w | w in Lower(d, all[k]) ensures w in Elements(all[..k]) {
      assert w in Elements(all);
      var l :| 0 <= l < |all| && all[l] == w;
      assert l < k;
      assert all[..k][l] == w;
    }
    forall w | w in Elements(all[..k]) ensures w in Lower(d, all[k]) {
      var l :| 0 <= l < |all[..k]| && all[..k][l] == w;
      assert all[l] == w && w in Elements(all) && all[k] in Elements(all);
    }
  }

  lemma ExtendedKeys(ext: map<int, seq<int>>, d: map<int, set<int>>)
    requires IsExtended(ext, d)
    ensures ext.Keys == d.Keys
  {}

  lemma ReorderedFacts(s: seq<int>, r: seq<int>)
    requires Reordered(s, r) && Distinct(s)
    ensures Elements(r) == Elements(s) && Distinct(r)
  {}

  lemma EnteredKeys(vars: seq<int>, d: map<int, set<int>>, lists: map<int, seq<int>>, ext: map<int, seq<int>>)
    requires Entered(vars, |vars|, d, lists, ext)
    ensures Lists(lists, d) && lists.Keys == Elements(vars) && Elements([]) == {}
  {
    assert vars[..|vars|] == vars;
  }

  lemma ApartFrom(vars: seq<int>, order: seq<int>, i: nat)
    requires Elements(vars) !! Elements(order) && i < |order|
    ensures order[i] !in vars && order[i] !in Elements(vars) && Elements(vars) !! Elements(order[..i])
  {
    assert order[i] in Elements(order);
  }

  lemma CoversKeys(ext: map<int, seq<int>>, d: map<int, set<int>>, done: set<int>)
    requires Covers(ext, d, done)
    ensures ext.Keys == done
  {}

  lemma AllIn(ext: map<int, seq<int>>, vars: seq<int>)
    requires Elements(vars) <= ext.Keys
    ensures HasAll(ext, vars)
  {
    forall k | 0 <= k < |vars| ensures vars[k] in ext { assert vars[k] in Elements(vars); }
  }

  lemma FirstsHaveLists(lists: map<int, seq<int>>, vars: seq<int>, ends: seq<nat>, d: map<int, set<int>>)
    requires Ladder(vars, ends, d) && Elements(vars) <= lists.Keys
    ensures Searchable(lists, vars, ends)
  {
    forall i | 0 <= i < |ends| - 1 ensures ends[i] < |vars| && vars[ends[i]] in lists {
      EndsRise(ends, |vars|, i);
      assert vars[ends[i]] in Elements(vars);
    }
  }

  /** The pairwise construction on the lists that the block-wise one leaves gives every variable the same dependencies. */
  lemma ConstructionsAgree(lists: map<int, seq<int>>, one: map<int, seq<int>>, two: map<int, seq<int>>, d: map<int, set<int>>)
    requires Lists(lists, d) && lists.Keys == one.Keys && IsExtended(one, d)
    ensures forall v :: v in lists ==> Distinct(lists[v])
    ensures IsExtended(two, ScopesOf(lists)) ==>
              two.Keys == one.Keys && forall v :: v in one ==> Elements(two[v]) == Elements(one[v])
  {
    forall v | v in d ensures v in lists && ScopesOf(lists)[v] == d[v] {}
    assert ScopesOf(lists) == d;
  }

  lemma DistinctConcat(a: seq<int>, b: seq<int>)
    requires Distinct(a) && Distinct(b) && Elements(a) !! Elements(b)
    ensures Distinct(a + b)
  {
    forall i, j | 0 <= i < j < |a + b| ensures (a + b)[i] != (a + b)[j] {
      if i < |a| <= j {
        assert (a + b)[i] in Elements(a) && (a + b)[j] == b[j - |a|] && b[j - |a|] in Elements(b);
      }
    }
  }

  class DependencyExtractor {
    const formula: QuantifierPrefix
    var original: map<int, seq<int>>

    constructor (formula: QuantifierPrefix)
      ensures this.formula == formula && original == map[]
    {
      this.formula := formula;
      original := map[];
    }

    /** Sort the existentials of block i. */
    method SortBlock(i: nat)
      requires i + 1 < |formula.existentialEnds| && Boundaries(formula.existentialEnds, |formula.existentials|)
      modifies formula`existentials
      ensures formula.existentials == SortRange(old(formula.existentials), formula.existentialEnds[i], formula.existentialEnds[i + 1])
    {
      EndsRise(formula.existentialEnds, |formula.existentials|, i);
      var lo, hi := formula.existentialEnds[i], formula.existentialEnds[i + 1];
      formula.existentials := SortRange(formula.existentials, lo, hi);
    }

    /** Sort the universals of the first blocks together. */
    method SortUniversals(i: nat)
      requires i < |formula.universalEnds| && formula.universalEnds[i] <= |formula.universals|
      modifies formula`universals
      ensures formula.universals == SortRange(old(formula.universals), 0, formula.universalEnds[i])
    {
      formula.universals := SortRange(formula.universals, 0, formula.universalEnds[i]);
    }

    /** The existentials of a block get the universals before it and the existentials before them. */
    method EnterBlock(lo: nat, hi: nat, deps: seq<int>, before: map<int, seq<int>>, ghost d: map<int, set<int>>)
      returns (ext: map<int, seq<int>>)
      requires lo <= hi <= |formula.existentials| && Distinct(formula.existentials)
      requires Entered(formula.existentials, lo, d, original, before)
      requires Increasing(deps)
      requires forall k :: lo <= k < hi ==> formula.existentials[k] in d && d[formula.existentials[k]] == Elements(deps)
      modifies `original
      ensures Entered(formula.existentials, hi, d, original, ext)
    {
      hide Entered, Distinct, Increasing, Elements;
      ext := before;
      for k := lo to hi
        invariant Entered(formula.existentials, k, d, original, ext)
      {
        var e := formula.existentials[k];
        EnteredNext(formula.existentials, k, d, original, ext, deps);
        original := original[e := deps];
        ext := ext[e := deps];
        ext := ext[e := ext[e] + formula.existentials[..k]];
      }
    }

    /** Walk over the existential blocks; returns the dependencies among their variables. */
    method ImplicitDependencies(ghost d: map<int, set<int>>) returns (ext: map<int, seq<int>>)
      requires formula.Valid() && Distinct(formula.universals) && Distinct(formula.existentials)
      requires formula.universals != [] && original == map[]
      requires Agrees(formula.scope, d)
      modifies `original, formula`universals, formula`existentials
      ensures Reordered(old(formula.existentials), formula.existentials)
      ensures Ladder(formula.existentials, formula.existentialEnds, d)
      ensures Entered(formula.existentials, |formula.existentials|, d, original, ext)
    {
      hide Blocks, Scoped, Distinct, Increasing, Elements, Entered, Ladder, BlocksSorted, UniversalsSorted, Boundaries, Sort;
      ghost var p, scope := formula.Snap(), formula.scope;
      var n := |formula.existentialEnds| - 1;
      var index := 0;
      SortedStart(p);
      EnteredStart(formula.existentials, d);
      FirstAndLast(p);
      if formula.firstUniversal {
        FirstUniversalBlock(p);
        SortUniversals(1);
        index := 1;
      }
      ext := map[];
      for i := 0 to n
        invariant 0 <= index < |formula.universalEnds|
        invariant i < n ==> index == if p.firstUniversal then i + 1 else i
        invariant BlocksSorted(p.existentials, formula.existentials, formula.existentialEnds, i)
        invariant UniversalsSorted(p.universals, formula.universals, formula.universalEnds, index)
        invariant Entered(formula.existentials, formula.existentialEnds[i], d, original, ext)
      {
        SortedSize(p, formula.existentials, i);
        BlockSortedNext(p, formula.existentials, i);
        EnteredSorted(p, formula.existentials, i, d, original, ext);
        SortBlock(i);
        DepsOfBlock(p, scope, formula.existentials, formula.universals, i, index, d);
        ext := EnterBlock(formula.existentialEnds[i], formula.existentialEnds[i + 1],
                          formula.universals[..formula.universalEnds[index]], ext, d);
        if index < |formula.universalEnds| - 1 {
          UniversalsNext(p, formula.universals, index);
          SortUniversals(index + 1);
          index := index + 1;
        }
        IndexFits(p, i);
      }
      SortedSize(p, formula.existentials, n);
      BlocksLadder(p, scope, formula.existentials, d);
    }

    /** Without universals the names decide alone. */
    method NoUniversals(order: seq<int>, ghost d: map<int, set<int>>) returns (ext: map<int, seq<int>>)
      requires forall v :: v in d ==> d[v] == {}
      requires d.Keys == Elements(formula.existentials) + Elements(order) && original == map[]
      requires Distinct(formula.existentials) && Distinct(order) && Elements(formula.existentials) !! Elements(order)
      modifies `original
      ensures Lists(original, d) && original.Keys == d.Keys && IsExtended(ext, d)
    {
      hide Distinct, Increasing, Elements, Entered, Lists;
      var all := Sort(formula.existentials + order);
      SortedNames(formula.existentials, order, all, d);
      EnteredStart(all, d);
      ext := map[];
      var visited := [];
      for k := 0 to |all|
        invariant visited == all[..k] && Entered(all, k, d, original, ext)
      {
        EnteredNext(all, k, d, original, ext, []);
        UpdateOnce(ext, all[k], visited);
        NextPrefix(all, k);
        original := original[all[k] := []];
        ext := ext[all[k] := visited];
        visited := visited + [all[k]];
      }
      NamesExtended(all, d, original, ext);
    }

    /** Blocks first, by position; then each variable with explicit dependencies is compared with all before it. */
    method ComputeExtendedDependencies(order: seq<int>) returns (ext: map<int, seq<int>>)
      requires formula.Valid() && Distinct(formula.universals) && Distinct(formula.existentials) && original == map[]
      requires ExplicitFit(formula.explicit, formula.universals, formula.existentials)
      requires Elements(order) == formula.explicit.Keys && Distinct(order)
      modifies `original, formula`universals, formula`existentials
      ensures IsExtended(ext, AllScopes(old(formula.scope), formula.explicit))
      ensures Lists(original, AllScopes(old(formula.scope), formula.explicit)) && original.Keys == ext.Keys
    {
      hide Blocks, Scoped, Distinct, Increasing, Elements, Entered, Ladder, Lists, Gained, Covers, IsExtended, Reordered, Sort;
      ghost var d, e0 := AllScopes(formula.scope, formula.explicit), formula.existentials;
      ScopesFit(formula.Snap(), formula.scope, formula.explicit, order);
      if formula.universals == [] {
        ext := NoUniversals(order, d);
        ExtendedKeys(ext, d);
        return;
      }
      ext := ImplicitDependencies(d);
      var vars := formula.existentials;
      ReorderedFacts(e0, vars);
      EnteredCovers(vars, formula.existentialEnds, d, original, ext);
      EnteredKeys(vars, d, original, ext);
      var processed := [];
      assert order[..0] == [];
      SetSums(Elements(vars), {}, 0);
      for i := 0 to |order|
        invariant processed == order[..i] && formula.existentials == vars
        invariant Covers(ext, d, Elements(vars) + Elements(order[..i])) && Lists(original, d)
        invariant original.Keys == Elements(vars) + Elements(order[..i])
        modifies `original
      {
        PrefixIn(order, i);
        NewElement(order, i);
        NextPrefix(order, i);
        SetSums(Elements(vars), Elements(order[..i]), order[i]);
        ext := AddExplicit(order[i], order, i, vars, ext, d);
        processed := processed + [order[i]];
      }
      assert order[..|order|] == order;
      CoversAll(ext, d);
      ExtendedKeys(ext, d);
    }

    /** Compare one variable with explicit dependencies with everything before it. */
    method AddExplicit(x: int, order: seq<int>, i: nat, ghost vars: seq<int>, before: map<int, seq<int>>,
                       ghost d: map<int, set<int>>) returns (ext: map<int, seq<int>>)
      requires i < |order| && x == order[i] && Distinct(order) && Distinct(vars) && vars == formula.existentials
      requires Elements(vars) !! Elements(order) && Ladder(vars, formula.existentialEnds, d)
      requires x in formula.explicit && Distinct(formula.explicit[x]) && x in d && d[x] == Elements(formula.explicit[x])
      requires Covers(before, d, Elements(vars) + Elements(order[..i])) && Lists(original, d)
      requires original.Keys == Elements(vars) + Elements(order[..i])
      modifies `original
      ensures Covers(ext, d, Elements(vars) + Elements(order[..i]) + {x}) && Lists(original, d)
      ensures original.Keys == Elements(vars) + Elements(order[..i]) + {x}
    {
      hide Distinct, Increasing, Elements, Ladder, Lists, Gained, Covers, Sort, Searchable;
      NewElement(order, i);
      PrefixIn(order, i);
      ApartFrom(vars, order, i);
      var list := Sort(formula.explicit[x]);
      SortFacts(formula.explicit[x]);
      ListsNext(original, d, x, list);
      CoversKeys(before, d, Elements(vars) + Elements(order[..i]));
      original := original[x := list];
      ext := before[x := list];
      FirstsHaveLists(original, vars, formula.existentialEnds, d);
      AllIn(ext, vars);
      var one := CheckImplicitDependencies(x, ext, d);
      GainedKeys(ext, one, d, x, Elements(vars));
      var two := CheckExplicitDependencies(original, d, x, order[..i], one);
      CoversNext(before, list, one, two, d, Elements(vars), Elements(order[..i]), x);
      ext := two;
    }

    /** Existentials of later blocks come after x. */
    method AddExplicitToImplicit(x: int, idx: nat, ext: map<int, seq<int>>) returns (more: map<int, seq<int>>)
      requires idx < |formula.existentialEnds| && formula.existentialEnds[idx] <= |formula.existentials|
      requires Distinct(formula.existentials) && HasAll(ext, formula.existentials)
      ensures AppendedTo(ext, more, x, Elements(formula.existentials[formula.existentialEnds[idx]..]))
    {
      more := AppendTo(ext, formula.existentials, formula.existentialEnds[idx], |formula.existentials|, x);
      assert formula.existentials[formula.existentialEnds[idx]..|formula.existentials|]
             == formula.existentials[formula.existentialEnds[idx]..];
    }

    /** x comes after the existentials of the blocks up to idx. */
    method AddImplicitToExplicit(x: int, idx: nat, ext: map<int, seq<int>>) returns (more: map<int, seq<int>>)
      requires idx + 1 < |formula.existentialEnds| && formula.existentialEnds[idx + 1] <= |formula.existentials|
      requires x in ext
      ensures more == ext[x := ext[x] + formula.existentials[..formula.existentialEnds[idx + 1]]]
    {
      more := ext[x := ext[x] + formula.existentials[..formula.existentialEnds[idx + 1]]];
    }

    /** Compare x with all existentials of the blocks, by their first variables. */
    method CheckImplicitDependencies(x: int, ext: map<int, seq<int>>, ghost d: map<int, set<int>>)
      returns (more: map<int, seq<int>>)
      requires Ladder(formula.existentials, formula.existentialEnds, d) && Lists(original, d)
      requires Searchable(original, formula.existentials, formula.existentialEnds) && x in original && x in ext
      requires Distinct(formula.existentials) && x !in formula.existentials
      requires HasAll(ext, formula.existentials)
      ensures Gained(ext, more, d, x, Elements(formula.existentials))
    {
      hide Ladder, Lists, Gained, AppendedTo, Shared, Stands, Includes, Elements, Distinct;
      var vars, ends := formula.existentials, formula.existentialEnds;
      var n := |ends| - 1;
      LadderEnds(vars, ends, d);
      MaximalSubSetFound(original, vars, ends, d, x, 0, n);
      var sub := GetMaximalSubSet(original, vars, ends, original[x], 0, n);
      var start := 0;
      more := ext;
      if sub != -1 {
        RungList(original, vars, ends, d, x, sub);
        EndsRise(ends, |vars|, sub);
        if |original[x]| == |original[vars[ends[sub]]]| {
          more := PlaceInBlock(x, ext, d, sub);
          return;
        }
        more := AddImplicitToExplicit(x, sub, ext);
        start := sub + 1;
      }
      MinimalSuperSetFound(original, vars, ends, d, x, start, n);
      var sup := GetMinimalSuperSet(original, vars, ends, original[x], start, n);
      EmptyPrefix(ext, x, vars);
      ghost var mid := more;
      AppendedNothing(mid, x, vars);
      if sup != n {
        EndsRise(ends, |vars|, sup);
        more := AddExplicitToImplicit(x, sup, more);
      }
      LastEnd(ends, |vars|, vars);
      BetweenHolds(vars, ends, d, x, sub, sup);
      StandsBetween(vars, ends, d, x, sub, sup);
      SharedBetween(ext, mid, more, x, vars, ends[sub + 1], ends[sup]);
      SharedIsGained(ext, more, d, x, vars, ends[sub + 1], ends[sup]);
    }

    /** The blocks after block r, unless the number of variables says that there are none. */
    method LaterBlocks(x: int, ext: map<int, seq<int>>, r: nat) returns (more: map<int, seq<int>>)
      requires Boundaries(formula.existentialEnds, |formula.existentials|) && r < |formula.existentialEnds| - 1
      requires Distinct(formula.existentials) && HasAll(ext, formula.existentials)
      ensures formula.existentialEnds[r + 1] <= |formula.existentials| && more.Keys == ext.Keys
      ensures AppendedTo(ext, more, x, Elements(formula.existentials[formula.existentialEnds[r + 1]..]))
    {
      more := ext;
      NotLastBlock(formula.existentialEnds, |formula.existentials|, r);
      EndsRise(formula.existentialEnds, |formula.existentials|, r);
      hide Boundaries;
      if r != |formula.existentials| - 1 {
        more := AddExplicitToImplicit(x, r + 1, more);
      } else {
        AppendedNothing(ext, x, formula.existentials);
      }
    }

    /** Block r has the dependencies of x: the names decide within it. */
    method PlaceInBlock(x: int, ext: map<int, seq<int>>, ghost d: map<int, set<int>>, r: nat) returns (more: map<int, seq<int>>)
      requires Ladder(formula.existentials, formula.existentialEnds, d) && r < |formula.existentialEnds| - 1
      requires x in d && Rung(formula.existentials, formula.existentialEnds, d, r) == d[x] && x in ext
      requires Distinct(formula.existentials) && x !in formula.existentials
      requires HasAll(ext, formula.existentials)
      ensures Gained(ext, more, d, x, Elements(formula.existentials))
    {
      hide Ladder, Gained, AppendedTo, Shared, Stands, Elements, Distinct;
      var vars, ends := formula.existentials, formula.existentialEnds;
      LadderEnds(vars, ends, d);
      EndsRise(ends, |vars|, r);
      if r > 0 { EndsRise(ends, |vars|, r - 1); }
      if r + 1 < |ends| - 1 { EndsRise(ends, |vars|, r + 1); }
      more := ext;
      if r != 0 {
        more := AddImplicitToExplicit(x, r - 1, more);
      }
      EmptyPrefix(ext, x, vars);
      ghost var one := more;
      more := LaterBlocks(x, more, r);
      ghost var two := more;
      LadderRises(vars, ends, d, r);
      var it := LowerBound(vars, ends[r], ends[r + 1], x);
      more := more[x := more[x] + vars[ends[r]..it]];
      ghost var three := more;
      more := AppendTo(more, vars, it, ends[r + 1], x);
      StandsWithin(vars, ends, d, x, r, it);
      SharedWithin(ext, one, two, three, more, x, vars, ends[r], it, ends[r + 1]);
      SharedIsGained(ext, more, d, x, vars, it, it);
    }
  }

  lemma LadderEnds(vars: seq<int>, ends: seq<nat>, d: map<int, set<int>>)
    requires Ladder(vars, ends, d)
    ensures Boundaries(ends, |vars|)
  {}

  lemma LastEnd(ends: seq<nat>, n: nat, vars: seq<int>)
    requires Boundaries(ends, n) && n == |vars|
    ensures ends[|ends| - 1] == n && vars[n..] == []
  {}

  lemma LadderRises(vars: seq<int>, ends: seq<nat>, d: map<int, set<int>>, i: nat)
    requires Ladder(vars, ends, d) && i < |ends| - 1
    ensures ends[i + 1] <= |vars| && forall k, l :: ends[i] <= k < l < ends[i + 1] ==> vars[k] < vars[l]
  {
    EndsRise(ends, |vars|, i);
  }

  /** The test against the number of variables is only skipped when no block follows. */
  lemma {:induction false} EndsGrow(ends: seq<nat>, n: nat, i: nat)
    requires Boundaries(ends, n) && i < |ends|
    ensures i <= ends[i]
  {
    if i > 0 { EndsGrow(ends, n, i - 1); }
  }

  lemma NotLastBlock(ends: seq<nat>, n: nat, r: nat)
    requires Boundaries(ends, n) && r < |ends| - 1
    ensures r == n - 1 ==> ends[r + 1] == n
  {
    EndsGrow(ends, n, r + 1);
    EndsRise(ends, n, r);
  }

  lemma BetweenHolds(vars: seq<int>, ends: seq<nat>, d: map<int, set<int>>, x: int, r: int, s: nat)
    requires Ladder(vars, ends, d) && x in d && -1 <= r < |ends| - 1 && r < s < |ends|
    requires forall i: nat :: i < |ends| - 1 ==> (Rung(vars, ends, d, i) <= d[x] <==> i <= r)
    requires forall i: nat :: r < i < |ends| - 1 ==> (d[x] <= Rung(vars, ends, d, i) <==> i >= s)
    ensures Between(vars, ends, d, x, r, s)
  {
    hide Ladder;
  }

  lemma EmptyPrefix(ext: map<int, seq<int>>, x: int, vars: seq<int>)
    requires x in ext
    ensures ext[x := ext[x] + vars[..0]] == ext
  {
    assert ext[x] + vars[..0] == ext[x];
  }

  lemma AppendedNothing(ext: map<int, seq<int>>, x: int, vars: seq<int>)
    ensures AppendedTo(ext, ext, x, Elements(vars[|vars|..]))
  {}

  lemma SharedBetween(ext: map<int, seq<int>>, mid: map<int, seq<int>>, more: map<int, seq<int>>, x: int,
                      vars: seq<int>, below: nat, above: nat)
    requires below <= |vars| && above <= |vars| && x in ext && x !in vars
    requires mid == ext[x := ext[x] + vars[..below]] && AppendedTo(mid, more, x, Elements(vars[above..]))
    ensures Shared(ext, more, x, vars, below, above)
  {
    forall v | v in ext
      ensures Elements(more[v]) == Elements(ext[v]) + (if v == x then Elements(vars[..below])
                                                       else if v in vars[above..] then {x} else {})
    {
      ConcatElements(ext[x], vars[..below]);
      ElementsAppended(ext[v], x);
      assert x !in vars[above..];
    }
  }

  lemma SharedWithin(ext: map<int, seq<int>>, one: map<int, seq<int>>, two: map<int, seq<int>>, three: map<int, seq<int>>,
                     more: map<int, seq<int>>, x: int, vars: seq<int>, lo: nat, it: nat, hi: nat)
    requires lo <= it <= hi <= |vars| && x in ext && x !in vars && Distinct(vars)
    requires one == ext[x := ext[x] + vars[..lo]] && AppendedTo(one, two, x, Elements(vars[hi..]))
    requires three == two[x := two[x] + vars[lo..it]] && AppendedTo(three, more, x, Elements(vars[it..hi]))
    ensures Shared(ext, more, x, vars, it, it)
  {
    assert vars[it..] == vars[it..hi] + vars[hi..];
    forall v | v in ext
      ensures Elements(more[v]) == Elements(ext[v]) + (if v == x then Elements(vars[..it])
                                                       else if v in vars[it..] then {x} else {})
    {
      if v == x {
        assert x !in vars[hi..] && x !in vars[it..hi];
        assert more[x] == ext[x] + vars[..lo] + vars[lo..it] == ext[x] + vars[..it];
        ConcatElements(ext[x], vars[..it]);
      } else {
        ElementsAppended(ext[v], x);
        assert !(v in vars[it..hi] && v in vars[hi..]);
        assert v in vars[it..] <==> v in vars[it..hi] || v in vars[hi..];
      }
    }
  }
}
