/** Numbers of subsets and of pairs. */
module Sizes {

  lemma Pick<T>(s: set<T>) returns (x: T)
    requires s != {}
    ensures x in s
  {
    x :| x in s;
  }

  function Pow2(n: nat): (r: nat)
    ensures r > 0
  {
    if n == 0 then 1 else 2 * Pow2(n - 1)
  }

  lemma {:induction false} Pow2Grows(m: nat, n: nat)
    requires m <= n
    ensures Pow2(m) <= Pow2(n)
    decreases n
  {
    if m < n { Pow2Grows(m, n - 1); }
  }

  lemma ProductGrows(a: nat, b: nat, c: nat, d: nat)
    requires a <= b && c <= d
    ensures a * c <= b * d
  {
    assert a * c <= b * c <= b * d;
  }

  ghost function Subsets<T>(s: set<T>): set<set<T>> {
    set t: set<T> | t <= s
  }

  lemma {:induction false} SubsetsCard<T>(s: set<T>)
    ensures |Subsets(s)| == Pow2(|s|)
    decreases |s|
  {
    hide Subsets;
    if s != {} {
      var x :| x in s;
      SubsetsCard(s - {x});
      SubsetsDouble(s, x);
    } else {
      NoSubsets<T>();
    }
  }

  /** An element more doubles the number of subsets. */
  lemma SubsetsDouble<T>(s: set<T>, x: T)
    requires x in s
    ensures |s| == |s - {x}| + 1 && |Subsets(s)| == 2 * |Subsets(s - {x})|
  {
    hide Subsets;
    var without := Subsets(s - {x});
    var with := set t | t in without :: t + {x};
    SubsetsSplit(s, x, without, with);
    AddedCard(without, with, x);
  }

  lemma NoSubsets<T>()
    ensures Subsets<T>({}) == {{}}
  {
    var none: set<T> := {};
    forall t: set<T> | t in Subsets(none) ensures t in {none} { assert t == none; }
    assert none in Subsets(none);
  }

  lemma SubsetsSplit<T>(s: set<T>, x: T, without: set<set<T>>, with: set<set<T>>)
    requires x in s && without == Subsets(s - {x}) && with == set t | t in without :: t + {x}
    ensures Subsets(s) == without + with && without !! with && forall t :: t in without ==> x !in t
  {
    forall t | t in Subsets(s) ensures t in without + with {
      if x in t {
        assert t - {x} in without && t == t - {x} + {x};
      } else {
        assert t <= s - {x};
      }
    }
    forall t | t in without + with ensures t in Subsets(s) {
      if t in with {
        var u :| u in without && t == u + {x};
        assert u <= s - {x};
      }
    }
    assert Subsets(s) == without + with;
  }

  lemma {:induction false} AddedCard<T>(a: set<set<T>>, b: set<set<T>>, x: T)
    requires (forall t :: t in a ==> x !in t) && b == set t | t in a :: t + {x}
    ensures |b| == |a|
    decreases |a|
  {
    if a != {} {
      var t :| t in a;
      var a2, b2 := a - {t}, b - {t + {x}};
      forall u | u in b2 ensures exists v :: v in a2 && u == v + {x} {
        var v :| v in a && u == v + {x};
      }
      forall v | v in a2 ensures v + {x} in b2 {
        assert (v + {x}) - {x} == v && (t + {x}) - {x} == t;
      }
      assert b2 == set u | u in a2 :: u + {x};
      AddedCard(a2, b2, x);
    }
  }

  ghost function Products<S, T>(a: set<S>, b: set<T>): set<(S, T)> {
    set x, y | x in a && y in b :: (x, y)
  }

  lemma {:induction false} ProductsCard<S, T>(a: set<S>, b: set<T>)
    ensures |Products(a, b)| == |a| * |b|
    decreases |a|
  {
    if a != {} {
      var x :| x in a;
      var row := set y | y in b :: (x, y);
      assert Products(a, b) == Products(a - {x}, b) + row && Products(a - {x}, b) !! row;
      ProductsCard(a - {x}, b);
      RowCard(x, b, row);
      assert |a| * |b| == (|a| - 1) * |b| + |b|;
    } else {
      assert Products(a, b) == {};
    }
  }

  lemma {:induction false} RowCard<S, T>(x: S, b: set<T>, row: set<(S, T)>)
    requires row == set y | y in b :: (x, y)
    ensures |row| == |b|
    decreases |b|
  {
    if b != {} {
      var y :| y in b;
      assert row - {(x, y)} == set z | z in b - {y} :: (x, z);
      RowCard(x, b - {y}, row - {(x, y)});
    }
  }
}
