/** What a separator costs, in numbers of vertices. */
module SeparatorCost {
  import opened Basics
  import opened SeparatorTheory

  ghost function FirstNames(p: Problem, n: nat): set<int>
    requires n <= |p.names|
  {
    set i | 0 <= i < n :: p.names[i]
  }

  ghost function Unpreferred(p: Problem, x: set<int>): set<int> { set v | v in x && v in p.unpreferred }

  lemma NothingUnpreferred(p: Problem)
    ensures Unpreferred(p, {}) == {}
  {}

  lemma OneMoreName(p: Problem, n: nat)
    requires n < |p.names| && forall i, j :: 0 <= i < j < |p.names| ==> p.names[i] != p.names[j]
    ensures FirstNames(p, n + 1) == FirstNames(p, n) + {p.names[n]} && p.names[n] !in FirstNames(p, n)
  {}

  /** A vertex weighs 2, and 1 more if it is unpreferred. */
  lemma {:induction false} WeightInNumbers(p: Problem, x: set<int>, n: nat)
    requires n <= |p.names| && (forall i, j :: 0 <= i < j < |p.names| ==> p.names[i] != p.names[j])
    requires forall v :: v in x ==> v !in p.forbidden
    ensures SetWeight(p, x, n) == 2 * |x * FirstNames(p, n)| + |Unpreferred(p, x * FirstNames(p, n))|
    decreases n
  {
    hide Unpreferred;
    var part := x * FirstNames(p, n);
    if n == 0 {
      assert part == {};
      NothingUnpreferred(p);
    } else {
      var v, before := p.names[n - 1], x * FirstNames(p, n - 1);
      OneMoreName(p, n - 1);
      WeightInNumbers(p, x, n - 1);
      if v in x { OneMoreCut(p, before, v); }
      assert part == if v in x then before + {v} else before;
    }
  }

  lemma OneMoreCut(p: Problem, x: set<int>, v: int)
    requires v !in x
    ensures |x + {v}| == |x| + 1
    ensures |Unpreferred(p, x + {v})| == |Unpreferred(p, x)| + if v in p.unpreferred then 1 else 0
  {
    assert Unpreferred(p, x + {v}) == Unpreferred(p, x) + if v in p.unpreferred then {v} else {};
  }

  lemma WeightOfSeparator(p: Problem, x: set<int>)
    requires WellFormed(p) && forall v :: v in x ==> v !in p.forbidden
    ensures TotalWeight(p, x) <= 2 * |x| + |Unpreferred(p, x)|
    ensures (forall v :: v in x ==> v in p.names) ==> TotalWeight(p, x) == 2 * |x| + |Unpreferred(p, x)|
  {
    var n := |p.names|;
    var part := x * FirstNames(p, n);
    WeightInNumbers(p, x, n);
    SubsetCard(part, x);
    SubsetCard(Unpreferred(p, part), Unpreferred(p, x));
    if forall v :: v in x ==> v in p.names {
      forall v | v in x ensures v in part { assert p.names[Position(p.names, v)] == v; }
      assert part == x;
    }
  }
}
