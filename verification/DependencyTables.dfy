/** What each variable may use while definitions are found: stored lists, pending additions, supports. */
module DependencyTables {

  /** Undefined variables have a stored list, defined ones a support; `pending` waits to be merged. */
  datatype Table = Table(universals: set<int>, stored: map<int, seq<int>>, toCompute: set<int>,
                         supports: map<int, seq<int>>, pending: map<int, seq<int>>)

  function Elements(s: seq<int>): set<int> { set x | x in s }

  ghost predicate Increasing(s: seq<int>) {
    forall i, j :: 0 <= i < j < |s| ==> s[i] < s[j]
  }

  /** `std::includes` on increasing lists. */
  predicate Includes(a: seq<int>, b: seq<int>) {
    forall x :: x in b ==> x in a
  }

  lemma IncludesMeans(a: seq<int>, b: seq<int>)
    ensures Includes(a, b) <==> Elements(b) <= Elements(a)
  {
    if Includes(a, b) {
      forall x | x in Elements(b) ensures x in Elements(a) {}
    }
    if Elements(b) <= Elements(a) {
      forall x | x in b ensures x in a { assert x in Elements(b); }
    }
  }

  ghost function Pending(t: Table, v: int): set<int> {
    if v in t.pending then Elements(t.pending[v]) else {}
  }

  /** The variables that v may use directly. */
  ghost function Uses(t: Table, v: int): set<int> {
    if v in t.toCompute && v in t.supports then Elements(t.supports[v])
    else if v in t.stored then Elements(t.stored[v]) + Pending(t, v)
    else {}
  }

  ghost function Existentials(t: Table): set<int> { t.stored.Keys + t.toCompute }

  ghost predicate WellFormed(t: Table) {
    && t.toCompute == t.supports.Keys && t.stored.Keys !! t.toCompute && t.pending.Keys <= t.stored.Keys
    && t.universals !! Existentials(t)
    && (forall v :: v in t.stored ==> Increasing(t.stored[v]))
    && (forall v :: v in t.pending ==> Increasing(t.pending[v]))
    && (forall v :: v in t.supports ==> Increasing(t.supports[v]))
    && (forall v, w :: w in Uses(t, v) ==> w in t.universals || w in Existentials(t))
  }

  /** Every variable comes after what it may use. */
  ghost predicate Ranked(t: Table, rank: int -> nat) {
    forall v, w :: w in Uses(t, v) ==> rank(w) < rank(v)
  }

  ghost predicate StepBounded(t: Table, bound: int -> set<int>, v: int, w: int) {
    if w in t.universals then w in bound(v) else bound(w) <= bound(v)
  }

  /** `bound` holds all universals that a variable can come to use, and keeps to the original dependencies. */
  ghost predicate Bounded(t: Table, deps: map<int, set<int>>, bound: int -> set<int>) {
    && Existentials(t) <= deps.Keys
    && (forall v :: v in Existentials(t) ==> bound(v) <= deps[v])
    && (forall v :: v in t.stored ==> bound(v) == deps[v])
    && (forall v, w :: w in Uses(t, v) ==> StepBounded(t, bound, v, w))
  }

  ghost predicate Sound(t: Table, deps: map<int, set<int>>) {
    && WellFormed(t)
    && (exists rank: int -> nat :: Ranked(t, rank))
    && (exists bound: int -> set<int> :: Bounded(t, deps, bound))
  }

  // ------------------------------------------------------- what soundness gives

  /** Every step of the path goes to a variable that may be used. */
  ghost predicate IsPath(t: Table, p: seq<int>) {
    |p| > 0 && forall i :: 0 < i < |p| ==> p[i] in Uses(t, p[i - 1])
  }

  lemma UsedIsBelow(t: Table, rank: int -> nat, v: int, w: int)
    requires Ranked(t, rank) && w in Uses(t, v)
    ensures rank(w) < rank(v)
  {
    hide Uses;
  }

  lemma {:induction false} RankFalls(t: Table, rank: int -> nat, p: seq<int>, i: nat)
    requires Ranked(t, rank) && IsPath(t, p) && 0 < i < |p|
    ensures rank(p[i]) < rank(p[0])
  {
    assert p[i] in Uses(t, p[i - 1]);
    UsedIsBelow(t, rank, p[i - 1], p[i]);
    if i > 1 { RankFalls(t, rank, p, i - 1); }
  }

  /** No variable may use itself, directly or through others. */
  lemma NoCycle(t: Table, deps: map<int, set<int>>, p: seq<int>)
    requires Sound(t, deps) && IsPath(t, p) && |p| > 1
    ensures p[0] != p[|p| - 1]
  {
    var rank: int -> nat :| Ranked(t, rank);
    RankFalls(t, rank, p, |p| - 1);
  }

  lemma {:induction false} BoundFalls(t: Table, deps: map<int, set<int>>, bound: int -> set<int>, p: seq<int>, i: nat)
    requires WellFormed(t) && Bounded(t, deps, bound) && IsPath(t, p) && i < |p| && p[i] !in t.universals
    ensures bound(p[i]) <= bound(p[0])
  {
    hide WellFormed, Uses;
    if i > 0 {
      assert p[i] in Uses(t, p[i - 1]) && StepBounded(t, bound, p[i - 1], p[i]);
      UserIsExistential(t, p[i - 1], p[i]);
      BoundFalls(t, deps, bound, p, i - 1);
    }
  }

  lemma UserIsExistential(t: Table, v: int, w: int)
    requires WellFormed(t) && w in Uses(t, v)
    ensures v in Existentials(t) && v !in t.universals
  {}

  /** The universals that a variable can reach are among its original dependencies. */
  lemma ReachesOnlyDependencies(t: Table, deps: map<int, set<int>>, p: seq<int>)
    requires Sound(t, deps) && IsPath(t, p) && p[|p| - 1] in t.universals && |p| > 1
    ensures p[0] in deps && p[|p| - 1] in deps[p[0]]
  {
    var bound: int -> set<int> :| Bounded(t, deps, bound);
    var n := |p| - 1;
    assert p[n] in Uses(t, p[n - 1]) && p[1] in Uses(t, p[0]);
    assert StepBounded(t, bound, p[n - 1], p[n]);
    UserIsExistential(t, p[0], p[1]);
    UserIsExistential(t, p[n - 1], p[n]);
    BoundFalls(t, deps, bound, p, n - 1);
  }

  // ------------------------------------------------------- scheduling a definition

  /** The undefined variables that may use everything in the support. */
  ghost function Touched(t: Table, support: seq<int>, undefined: set<int>): set<int> {
    set v | v in undefined && Elements(support) <= Uses(t, v)
  }

  ghost function Appended(t: Table, v: int, x: int): seq<int> {
    (if v in t.pending then t.pending[v] else []) + [x]
  }

  /** x is defined from its support: it loses its list, and whoever may use the support may use x. */
  ghost function Scheduled(t: Table, x: int, support: seq<int>, undefined: set<int>): Table {
    var touched := Touched(t, support, undefined);
    Table(t.universals, t.stored - {x}, t.toCompute + {x}, t.supports[x := support],
          map v | v in (t.pending.Keys - {x}) + touched :: if v in touched then Appended(t, v, x) else t.pending[v])
  }

  /** What the caller ensures: x has just been defined, and definitions are scheduled in increasing order. */
  ghost predicate Schedulable(t: Table, x: int, support: seq<int>, undefined: set<int>) {
    && x in t.stored && x !in undefined && undefined <= t.stored.Keys
    && Increasing(support) && Elements(support) <= Uses(t, x)
    && (forall v, i :: v in t.pending && 0 <= i < |t.pending[v]| ==> t.pending[v][i] < x)
  }

  lemma ElementsAppended(s: seq<int>, x: int)
    ensures Elements(s + [x]) == Elements(s) + {x}
  {
    assert forall y :: y in s + [x] <==> y in s || y == x;
  }

  lemma UsesScheduled(t: Table, x: int, support: seq<int>, undefined: set<int>, v: int)
    requires WellFormed(t) && Schedulable(t, x, support, undefined)
    ensures Uses(Scheduled(t, x, support, undefined), v) ==
            if v == x then Elements(support)
            else if v in Touched(t, support, undefined) then Uses(t, v) + {x}
            else Uses(t, v)
  {
    if v in Touched(t, support, undefined) {
      ElementsAppended(if v in t.pending then t.pending[v] else [], x);
      assert Elements([]) == {};
    }
  }

  lemma ScheduledWellFormed(t: Table, x: int, support: seq<int>, undefined: set<int>)
    requires WellFormed(t) && Schedulable(t, x, support, undefined)
    ensures WellFormed(Scheduled(t, x, support, undefined))
  {
    var s := Scheduled(t, x, support, undefined);
    forall v, w | w in Uses(s, v) ensures w in s.universals || w in Existentials(s) {
      UsesScheduled(t, x, support, undefined, v);
    }
    forall v | v in s.pending ensures Increasing(s.pending[v]) {}
  }

  /** One above the largest of twice the ranks. */
  ghost function Above(rank: int -> nat, s: seq<int>): nat {
    if s == [] then 1
    else
      var m := Above(rank, s[..|s| - 1]);
      if m < 2 * rank(s[|s| - 1]) + 3 then 2 * rank(s[|s| - 1]) + 3 else m
  }

  lemma {:induction false} AboveAll(rank: int -> nat, s: seq<int>, bound: nat)
    ensures forall y :: y in s ==> 2 * rank(y) + 2 < Above(rank, s)
    ensures (forall y :: y in s ==> rank(y) < bound) ==> Above(rank, s) < 2 * bound + 2
  {
    if s != [] {
      var r := s[..|s| - 1];
      AboveAll(rank, r, bound);
      assert forall y :: y in s <==> y in r || y == s[|s| - 1];
    }
  }

  /** Ranks after scheduling: x goes between its support and everything that may use the support. */
  ghost function NewRank(rank: int -> nat, x: int, support: seq<int>): int -> nat {
    v => if v == x then Above(rank, support) else 2 * rank(v) + 2
  }

  lemma ScheduledRanked(t: Table, x: int, support: seq<int>, undefined: set<int>, rank: int -> nat)
    requires WellFormed(t) && Schedulable(t, x, support, undefined) && Ranked(t, rank)
    ensures Ranked(Scheduled(t, x, support, undefined), NewRank(rank, x, support))
  {
    var s, r := Scheduled(t, x, support, undefined), NewRank(rank, x, support);
    forall v, w | w in Uses(s, v) ensures r(w) < r(v) {
      UsesScheduled(t, x, support, undefined, v);
      hide WellFormed, Uses, Scheduled;
      AboveAll(rank, support, rank(v));
      if v == x { SupportSmaller(t, x, support, rank, w); }
      else if w == x { SupportBelow(t, x, support, undefined, rank, v); }
    }
  }

  lemma SupportSmaller(t: Table, x: int, support: seq<int>, rank: int -> nat, w: int)
    requires Ranked(t, rank) && Elements(support) <= Uses(t, x) && w in Elements(support)
    ensures w != x && w in support
  {
    assert w in Uses(t, x);
    assert rank(w) < rank(x);
  }

  /** Whoever may use x afterwards is above everything in its support. */
  lemma SupportBelow(t: Table, x: int, support: seq<int>, undefined: set<int>, rank: int -> nat, v: int)
    requires Ranked(t, rank) && Elements(support) <= Uses(t, x)
    requires v in Touched(t, support, undefined) || x in Uses(t, v)
    ensures forall y :: y in support ==> rank(y) < rank(v)
  {
    hide Uses;
    forall y | y in support ensures rank(y) < rank(v) {
      assert y in Elements(support);
      if v in Touched(t, support, undefined) {
        assert y in Uses(t, v);
      } else {
        assert rank(y) < rank(x) < rank(v);
      }
    }
  }

  /** All universals that come with the support. */
  ghost function SupportBound(t: Table, bound: int -> set<int>, s: seq<int>): set<int> {
    if s == [] then {}
    else
      var y := s[|s| - 1];
      SupportBound(t, bound, s[..|s| - 1]) + (if y in t.universals then {y} else bound(y))
  }

  lemma {:induction false} SupportBounded(t: Table, bound: int -> set<int>, s: seq<int>, v: int)
    ensures forall y :: y in s ==> if y in t.universals then y in SupportBound(t, bound, s)
                                   else bound(y) <= SupportBound(t, bound, s)
    ensures (forall y :: y in s ==> StepBounded(t, bound, v, y)) ==> SupportBound(t, bound, s) <= bound(v)
  {
    if s != [] {
      var r := s[..|s| - 1];
      SupportBounded(t, bound, r, v);
      assert forall y :: y in s <==> y in r || y == s[|s| - 1];
    }
  }

  ghost function NewBound(t: Table, bound: int -> set<int>, x: int, support: seq<int>): int -> set<int> {
    v => if v == x then SupportBound(t, bound, support) else bound(v)
  }

  /** Whoever may use x afterwards may come to use what its support may. */
  lemma SupportWithin(t: Table, deps: map<int, set<int>>, bound: int -> set<int>, x: int, support: seq<int>,
                      undefined: set<int>, v: int)
    requires WellFormed(t) && Bounded(t, deps, bound) && Elements(support) <= Uses(t, x) && x in t.stored
    requires v == x || v in Touched(t, support, undefined) || x in Uses(t, v)
    ensures SupportBound(t, bound, support) <= bound(v)
  {
    var u := if v in Touched(t, support, undefined) then v else x;
    forall y | y in support ensures StepBounded(t, bound, u, y) {
      assert y in Elements(support) && y in Uses(t, u);
    }
    hide Uses, WellFormed;
    SupportBounded(t, bound, support, u);
    if u != v {
      assert StepBounded(t, bound, v, x);
      StoredNotUniversal(t, x);
    }
  }

  lemma StoredNotUniversal(t: Table, x: int)
    requires WellFormed(t) && x in t.stored
    ensures x !in t.universals
  {}

  lemma ScheduledBounded(t: Table, deps: map<int, set<int>>, x: int, support: seq<int>, undefined: set<int>,
                         rank: int -> nat, bound: int -> set<int>)
    requires WellFormed(t) && Schedulable(t, x, support, undefined) && Ranked(t, rank) && Bounded(t, deps, bound)
    ensures Bounded(Scheduled(t, x, support, undefined), deps, NewBound(t, bound, x, support))
  {
    var s, b := Scheduled(t, x, support, undefined), NewBound(t, bound, x, support);
    SupportWithin(t, deps, bound, x, support, undefined, x);
    forall v, w | w in Uses(s, v) ensures StepBounded(s, b, v, w) {
      UsesScheduled(t, x, support, undefined, v);
      hide Uses, WellFormed, Ranked;
      StoredNotUniversal(t, x);
      if v == x {
        SupportSmaller(t, x, support, rank, w);
        SupportBounded(t, bound, support, x);
      } else if w == x {
        SupportWithin(t, deps, bound, x, support, undefined, v);
      } else {
        assert StepBounded(t, bound, v, w);
      }
    }
  }

  /** A definition whose support the variable may use keeps the table sound. */
  lemma ScheduledSound(t: Table, deps: map<int, set<int>>, x: int, support: seq<int>, undefined: set<int>)
    requires Sound(t, deps) && Schedulable(t, x, support, undefined)
    ensures Sound(Scheduled(t, x, support, undefined), deps)
  {
    var rank: int -> nat :| Ranked(t, rank);
    var bound: int -> set<int> :| Bounded(t, deps, bound);
    hide WellFormed, Ranked, Bounded, Scheduled, Schedulable;
    ScheduledWellFormed(t, x, support, undefined);
    ScheduledRanked(t, x, support, undefined, rank);
    ScheduledBounded(t, deps, x, support, undefined, rank, bound);
  }

  // ------------------------------------------------------- merging what is pending

  /** Two increasing lists as one. */
  function Merge(a: seq<int>, b: seq<int>): seq<int> {
    if a == [] then b
    else if b == [] then a
    else if a[0] == b[0] then [a[0]] + Merge(a[1..], b[1..])
    else if a[0] < b[0] then [a[0]] + Merge(a[1..], b)
    else [b[0]] + Merge(a, b[1..])
  }

  lemma {:induction false} MergeElements(a: seq<int>, b: seq<int>, x: int)
    ensures x in Merge(a, b) <==> x in a || x in b
    decreases |a| + |b|
  {
    if a != [] && b != [] {
      assert (x in a <==> x == a[0] || x in a[1..]) && (x in b <==> x == b[0] || x in b[1..]);
      if a[0] == b[0] { MergeElements(a[1..], b[1..], x); }
      else if a[0] < b[0] { MergeElements(a[1..], b, x); }
      else { MergeElements(a, b[1..], x); }
    }
  }

  lemma {:induction false} MergeIncreasing(a: seq<int>, b: seq<int>)
    requires Increasing(a) && Increasing(b)
    ensures Increasing(Merge(a, b))
    decreases |a| + |b|
  {
    if a != [] && b != [] {
      var x := if a[0] == b[0] then a[1..] else if a[0] < b[0] then a[1..] else a;
      var y := if a[0] == b[0] then b[1..] else if a[0] < b[0] then b else b[1..];
      var h := if a[0] == b[0] then a[0] else if a[0] < b[0] then a[0] else b[0];
      MergeIncreasing(x, y);
      assert Merge(a, b) == [h] + Merge(x, y);
      forall i | 0 <= i < |Merge(x, y)| ensures h < Merge(x, y)[i] {
        MergeElements(x, y, Merge(x, y)[i]);
        assert forall k :: k in x ==> h < k;
        assert forall k :: k in y ==> h < k;
      }
      hide Merge;
      PrependIncreasing(h, Merge(x, y));
    }
  }

  lemma PrependIncreasing(h: int, s: seq<int>)
    requires Increasing(s) && forall i :: 0 <= i < |s| ==> h < s[i]
    ensures Increasing([h] + s)
  {}

  /** The pending additions move into the lists. */
  ghost function Performed(t: Table): Table {
    t.(stored := map v | v in t.stored :: (if v in t.pending then Merge(t.stored[v], t.pending[v]) else t.stored[v]),
       pending := map[])
  }

  lemma UsesPerformed(t: Table, v: int)
    requires WellFormed(t)
    ensures Uses(Performed(t), v) == Uses(t, v)
  {
    if v in t.stored && v in t.pending {
      forall x ensures x in Merge(t.stored[v], t.pending[v]) <==> x in t.stored[v] || x in t.pending[v] {
        MergeElements(t.stored[v], t.pending[v], x);
      }
    }
  }

  lemma PerformedSound(t: Table, deps: map<int, set<int>>)
    requires Sound(t, deps)
    ensures Sound(Performed(t), deps)
  {
    var s := Performed(t);
    forall v ensures Uses(s, v) == Uses(t, v) { UsesPerformed(t, v); }
    forall v | v in s.stored ensures Increasing(s.stored[v]) {
      if v in t.pending { MergeIncreasing(t.stored[v], t.pending[v]); }
    }
    hide Uses, Increasing, Merge;
    var rank: int -> nat :| Ranked(t, rank);
    var bound: int -> set<int> :| Bounded(t, deps, bound);
    assert s.stored.Keys == t.stored.Keys;
    assert Ranked(s, rank);
    PerformedBounded(t, deps, bound);
  }

  lemma PerformedBounded(t: Table, deps: map<int, set<int>>, bound: int -> set<int>)
    requires WellFormed(t) && Bounded(t, deps, bound)
    ensures Bounded(Performed(t), deps, bound)
  {
    var s := Performed(t);
    assert s.stored.Keys == t.stored.Keys;
    hide Uses, WellFormed, Performed, Merge;
    forall v, w | w in Uses(s, v) ensures StepBounded(s, bound, v, w) {
      UsesPerformed(t, v);
      assert StepBounded(t, bound, v, w);
    }
  }

  // ------------------------------------------------------- runs

  datatype Step = Schedule(x: int, support: seq<int>, undefined: set<int>) | Perform

  ghost predicate Allowed(t: Table, s: Step) {
    s.Schedule? ==> Schedulable(t, s.x, s.support, s.undefined)
  }

  ghost function After(t: Table, s: Step): Table {
    match s
    case Schedule(x, support, undefined) => Scheduled(t, x, support, undefined)
    case Perform => Performed(t)
  }

  ghost function Run(t: Table, steps: seq<Step>): Table {
    if steps == [] then t else After(Run(t, steps[..|steps| - 1]), steps[|steps| - 1])
  }

  ghost predicate AllAllowed(t: Table, steps: seq<Step>) {
    forall i :: 0 <= i < |steps| ==> Allowed(Run(t, steps[..i]), steps[i])
  }

  /** Every run keeps the table sound: no cycles, and nothing beyond the original dependencies. */
  lemma {:induction false} RunSound(t: Table, deps: map<int, set<int>>, steps: seq<Step>)
    requires Sound(t, deps) && AllAllowed(t, steps)
    ensures Sound(Run(t, steps), deps)
  {
    if steps != [] {
      var n := |steps| - 1;
      AllowedPrefix(t, steps);
      RunSound(t, deps, steps[..n]);
      hide AllAllowed, Allowed, Sound;
      StepSound(Run(t, steps[..n]), deps, steps[n]);
    }
  }

  lemma AllowedPrefix(t: Table, steps: seq<Step>)
    requires AllAllowed(t, steps) && steps != []
    ensures AllAllowed(t, steps[..|steps| - 1]) && Allowed(Run(t, steps[..|steps| - 1]), steps[|steps| - 1])
  {
    hide Run, Allowed;
    var r := steps[..|steps| - 1];
    forall i | 0 <= i < |r| ensures Allowed(Run(t, r[..i]), r[i]) {
      assert r[..i] == steps[..i] && Allowed(Run(t, steps[..i]), steps[i]);
    }
  }

  lemma StepSound(t: Table, deps: map<int, set<int>>, s: Step)
    requires Sound(t, deps) && Allowed(t, s)
    ensures Sound(After(t, s), deps)
  {
    hide Sound, Performed, Scheduled, Schedulable;
    match s
    case Schedule(x, support, undefined) => ScheduledSound(t, deps, x, support, undefined);
    case Perform => PerformedSound(t, deps);
  }

  // ------------------------------------------------------- dependencies of a defined variable

  /** The support of a defined variable, with what each of its members stands for. */
  ghost function Dynamic(t: Table, rank: int -> nat, v: int): set<int>
    requires WellFormed(t) && Ranked(t, rank) && v in t.toCompute
    decreases rank(v)
  {
    Elements(t.supports[v]) + DynamicOf(t, rank, v, t.supports[v])
  }

  /** The part that a list of members of the support of v adds. */
  ghost function DynamicOf(t: Table, rank: int -> nat, v: int, s: seq<int>): set<int>
    requires WellFormed(t) && Ranked(t, rank) && v in t.toCompute && Elements(s) <= Elements(t.supports[v])
    decreases rank(v), |s|
  {
    if s == [] then {}
    else
      var y := s[|s| - 1];
      assert y in Elements(s) && y in Uses(t, v);
      DynamicOf(t, rank, v, s[..|s| - 1]) + Member(t, rank, y)
  }

  ghost function Member(t: Table, rank: int -> nat, y: int): set<int>
    requires WellFormed(t) && Ranked(t, rank)
    decreases rank(y) + 1, 0
  {
    if y in t.universals then {y}
    else if y in t.toCompute then Dynamic(t, rank, y)
    else if y in t.stored then Elements(t.stored[y])
    else {}
  }

  /** A path through defined variables; the last step may start at a variable with a stored list. */
  ghost predicate DefinedPath(t: Table, p: seq<int>) {
    && |p| >= 2 && IsPath(t, p) && p[0] in t.toCompute
    && (forall i :: 0 <= i < |p| - 2 ==> p[i] in t.toCompute)
    && (p[|p| - 2] in t.stored ==> p[|p| - 1] in t.stored[p[|p| - 2]])
  }

  lemma {:induction false} MemberOf(t: Table, rank: int -> nat, v: int, s: seq<int>, w: int) returns (y: int)
    requires WellFormed(t) && Ranked(t, rank) && v in t.toCompute && Elements(s) <= Elements(t.supports[v])
    requires w in DynamicOf(t, rank, v, s)
    ensures y in s && w in Member(t, rank, y)
  {
    hide WellFormed, Ranked, Member;
    y := s[|s| - 1];
    if w !in Member(t, rank, y) { y := MemberOf(t, rank, v, s[..|s| - 1], w); }
  }

  lemma {:induction false} MemberIn(t: Table, rank: int -> nat, v: int, s: seq<int>, y: int)
    requires WellFormed(t) && Ranked(t, rank) && v in t.toCompute && Elements(s) <= Elements(t.supports[v]) && y in s
    ensures Member(t, rank, y) <= DynamicOf(t, rank, v, s)
  {
    hide WellFormed, Ranked, Member;
    if y != s[|s| - 1] {
      assert y in s[..|s| - 1];
      MemberIn(t, rank, v, s[..|s| - 1], y);
    }
  }

  lemma InSupport(t: Table, v: int, y: int)
    requires WellFormed(t) && v in t.toCompute
    ensures y in t.supports[v] <==> y in Uses(t, v)
  {}

  lemma PathCons(t: Table, v: int, p: seq<int>)
    requires |p| > 0 && IsPath(t, p) && p[0] in Uses(t, v)
    ensures IsPath(t, [v] + p)
  {
    hide Uses;
    var q := [v] + p;
    forall i | 0 < i < |q| ensures q[i] in Uses(t, q[i - 1]) {
      if i > 1 { assert q[i] == p[i - 1] && q[i - 1] == p[i - 2]; }
    }
  }

  lemma {:induction false} DynamicHasPath(t: Table, rank: int -> nat, v: int, w: int) returns (p: seq<int>)
    requires WellFormed(t) && Ranked(t, rank) && v in t.toCompute && w in Dynamic(t, rank, v)
    ensures DefinedPath(t, p) && p[0] == v && p[|p| - 1] == w
    decreases rank(v)
  {
    hide WellFormed, Ranked, Uses;
    DefinedNotStored(t, v);
    if w in t.supports[v] {
      InSupport(t, v, w);
      p := [v, w];
    } else {
      var y := MemberOf(t, rank, v, t.supports[v], w);
      InSupport(t, v, y);
      UsedIsBelow(t, rank, v, y);
      if y in t.toCompute {
        p := DynamicHasPath(t, rank, y, w);
        PathCons(t, v, p);
        ConsDefined(t, v, p);
        p := [v] + p;
      } else {
        StoredIsUsed(t, y, w);
        p := [v, y, w];
      }
    }
  }

  lemma DefinedNotStored(t: Table, v: int)
    requires WellFormed(t) && v in t.toCompute
    ensures v !in t.stored && v in t.supports && v !in t.universals
  {}

  lemma StoredIsUsed(t: Table, y: int, w: int)
    requires WellFormed(t) && y in t.stored && w in t.stored[y]
    ensures w in Uses(t, y)
  {}

  lemma ConsDefined(t: Table, v: int, p: seq<int>)
    requires DefinedPath(t, p) && v in t.toCompute && IsPath(t, [v] + p)
    ensures DefinedPath(t, [v] + p)
  {
    hide IsPath;
    var q := [v] + p;
    forall i | 0 <= i < |q| - 2 ensures q[i] in t.toCompute {
      if i > 0 { assert q[i] == p[i - 1]; }
    }
  }

  lemma {:induction false} PathInDynamic(t: Table, rank: int -> nat, p: seq<int>)
    requires WellFormed(t) && Ranked(t, rank) && DefinedPath(t, p)
    ensures p[|p| - 1] in Dynamic(t, rank, p[0])
    decreases |p|
  {
    hide WellFormed, Ranked, Uses;
    var v, y, n := p[0], p[1], |p| - 1;
    DefinedNotStored(t, v);
    assert y in Uses(t, v);
    InSupport(t, v, y);
    if n > 1 {
      MemberIn(t, rank, v, t.supports[v], y);
      assert p[2] in Uses(t, y);
      UserIsExistential(t, y, p[2]);
      if y in t.toCompute {
        assert DefinedPath(t, p[1..]);
        PathInDynamic(t, rank, p[1..]);
      }
    }
  }

  /** What a defined variable depends on: everything reached through supports, with the lists met there. */
  lemma DynamicIsReach(t: Table, rank: int -> nat, v: int, w: int)
    requires WellFormed(t) && Ranked(t, rank) && v in t.toCompute
    ensures w in Dynamic(t, rank, v) <==> exists p :: DefinedPath(t, p) && p[0] == v && p[|p| - 1] == w
  {
    hide Dynamic, IsPath;
    if w in Dynamic(t, rank, v) { var p := DynamicHasPath(t, rank, v, w); }
    if p :| DefinedPath(t, p) && p[0] == v && p[|p| - 1] == w { PathInDynamic(t, rank, p); }
  }

  /** The computed dependencies never hold the variable itself nor a universal outside its dependency set. */
  lemma DynamicWithin(t: Table, deps: map<int, set<int>>, rank: int -> nat, v: int, w: int)
    requires Sound(t, deps) && Ranked(t, rank) && v in t.toCompute && w in Dynamic(t, rank, v)
    ensures w != v && v in deps && (w in t.universals ==> w in deps[v])
  {
    var p := DynamicHasPath(t, rank, v, w);
    NoCycle(t, deps, p);
    BoundedDomain(t, deps, v);
    if w in t.universals { ReachesOnlyDependencies(t, deps, p); }
  }

  lemma BoundedDomain(t: Table, deps: map<int, set<int>>, v: int)
    requires Sound(t, deps) && v in t.toCompute
    ensures v in deps
  {
    var bound: int -> set<int> :| Bounded(t, deps, bound);
  }

  // ------------------------------------------------------- where runs start

  /** The extended dependencies: smaller or equal dependency sets, ties broken by a strict order. */
  ghost predicate Extended(t: Table, deps: map<int, set<int>>, before: (int, int) -> bool) {
    && t.toCompute == {} && t.supports == map[] && t.pending == map[] && t.stored.Keys == deps.Keys
    && t.universals !! deps.Keys
    && (forall v :: v in deps ==> Increasing(t.stored[v]) && deps[v] <= t.universals)
    && (forall v, w :: v in deps ==> (w in t.stored[v] <==> w in deps[v] || (w in deps && before(w, v))))
    && (forall v, w :: v in deps && w in deps && before(w, v) ==> deps[w] <= deps[v])
    && (forall v :: !before(v, v)) && (forall u, v, w :: before(u, v) && before(v, w) ==> before(u, w))
  }

  /** Extended dependencies that come from a strict order are a sound start. */
  lemma ExtendedSound(t: Table, deps: map<int, set<int>>, before: (int, int) -> bool)
    requires Extended(t, deps, before)
    ensures Sound(t, deps)
  {
    ExtendedShape(t, deps, before);
    ExtendedRanked(t, deps, before);
    ExtendedBounded(t, deps, before);
    hide *;
    SoundBy(t, deps, StartRank(deps, before), StartBound(deps));
  }

  lemma SoundBy(t: Table, deps: map<int, set<int>>, rank: int -> nat, bound: int -> set<int>)
    requires WellFormed(t) && Ranked(t, rank) && Bounded(t, deps, bound)
    ensures Sound(t, deps)
  {}

  ghost function StartRank(deps: map<int, set<int>>, before: (int, int) -> bool): int -> nat {
    v => |Smaller(deps, before, v)| + (if v in deps then 1 else 0)
  }

  ghost function StartBound(deps: map<int, set<int>>): int -> set<int> {
    v => if v in deps then deps[v] else {}
  }

  lemma ExtendedRanked(t: Table, deps: map<int, set<int>>, before: (int, int) -> bool)
    requires Extended(t, deps, before)
    ensures Ranked(t, StartRank(deps, before))
  {
    hide Extended, Uses, Smaller;
    forall v, w | w in Uses(t, v) ensures StartRank(deps, before)(w) < StartRank(deps, before)(v) {
      ExtendedStep(t, deps, before, v, w);
    }
  }

  lemma ExtendedBounded(t: Table, deps: map<int, set<int>>, before: (int, int) -> bool)
    requires Extended(t, deps, before)
    ensures Bounded(t, deps, StartBound(deps))
  {
    hide Extended, Uses, Smaller;
    ExtendedShape(t, deps, before);
    forall v, w | w in Uses(t, v) ensures StepBounded(t, StartBound(deps), v, w) {
      ExtendedStep(t, deps, before, v, w);
    }
  }

  lemma ExtendedStep(t: Table, deps: map<int, set<int>>, before: (int, int) -> bool, v: int, w: int)
    requires Extended(t, deps, before) && w in Uses(t, v)
    ensures v in deps && (if w in deps then deps[w] <= deps[v] && w !in t.universals else w in deps[v] && w in t.universals)
    ensures |Smaller(deps, before, w)| + (if w in deps then 1 else 0) < |Smaller(deps, before, v)| + 1
  {
    ExtendedUses(t, deps, before, v, w);
    hide Uses, Smaller, Increasing;
    if w in deps {
      SmallerRises(deps, before, w, v);
    } else {
      NothingSmaller(deps, before, w);
    }
  }

  lemma ExtendedUses(t: Table, deps: map<int, set<int>>, before: (int, int) -> bool, v: int, w: int)
    requires Extended(t, deps, before) && w in Uses(t, v)
    ensures v in deps && (if w in deps then before(w, v) && deps[w] <= deps[v] && w !in t.universals
                          else w in deps[v] && w in t.universals)
  {
    assert w in t.stored[v];
  }

  lemma ExtendedShape(t: Table, deps: map<int, set<int>>, before: (int, int) -> bool)
    requires Extended(t, deps, before)
    ensures WellFormed(t) && t.stored.Keys == deps.Keys && t.toCompute == {}
  {
    forall v, w | w in Uses(t, v) ensures w in t.universals || w in Existentials(t) { ExtendedUses(t, deps, before, v, w); }
  }

  ghost function Smaller(deps: map<int, set<int>>, before: (int, int) -> bool, v: int): set<int> {
    set w | w in deps && v in deps && before(w, v)
  }

  lemma SmallerRises(deps: map<int, set<int>>, before: (int, int) -> bool, w: int, v: int)
    requires v in deps && w in deps && before(w, v) && (forall x :: !before(x, x))
    requires forall x, y, z :: before(x, y) && before(y, z) ==> before(x, z)
    ensures |Smaller(deps, before, w)| < |Smaller(deps, before, v)|
  {
    var x, y := Smaller(deps, before, w), Smaller(deps, before, v);
    forall u | u in x ensures u in y { assert before(u, w) && before(w, v); }
    assert w in y && w !in x;
    FewerElements(x, y);
  }

  lemma FewerElements(x: set<int>, y: set<int>)
    requires x < y
    ensures |x| < |y|
  {
    assert y == x + (y - x) && y - x != {};
  }

  lemma NothingSmaller(deps: map<int, set<int>>, before: (int, int) -> bool, w: int)
    requires w !in deps
    ensures |Smaller(deps, before, w)| == 0
  {
    assert Smaller(deps, before, w) == {};
  }
}
