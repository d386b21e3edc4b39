/** The measure behind termination of the search: the ends of the levels, read as a number.
    Every conflict, decision and dummy level makes the sequence of ends grow lexicographically. */
module CdclRank {

  function Pow(b: nat, e: nat): nat {
    if e == 0 then 1 else b * Pow(b, e - 1)
  }

  /** The k-th digit: a level that ends later counts less, a missing level counts most. */
  function Digit(ends: seq<nat>, k: nat, n: nat): nat {
    if k >= |ends| then n + 2 else if ends[k] <= n then n + 1 - ends[k] else 0
  }

  function Rest(ends: seq<nat>): seq<nat> {
    if ends == [] then [] else ends[1..]
  }

  /** The first `depth` digits as a number in base n + 3. */
  function Rank(ends: seq<nat>, depth: nat, n: nat): nat
    decreases depth
  {
    if depth == 0 then 0
    else Digit(ends, 0, n) * Pow(n + 3, depth - 1) + Rank(Rest(ends), depth - 1, n)
  }

  lemma LeadingDigit(d: nat, e: nat, p: nat, r: nat)
    requires d < e && r < p
    ensures d * p + r < e * p
  {
    assert (d + 1) * p <= e * p by { MulMonotone(d + 1, e, p); }
    assert (d + 1) * p == d * p + p;
  }

  lemma MulMonotone(a: nat, b: nat, p: nat)
    requires a <= b
    ensures a * p <= b * p
  {}

  lemma {:induction false} RankBound(ends: seq<nat>, depth: nat, n: nat)
    ensures Rank(ends, depth, n) < Pow(n + 3, depth)
    decreases depth
  {
    if depth > 0 {
      RankBound(Rest(ends), depth - 1, n);
      LeadingDigit(Digit(ends, 0, n), n + 3, Pow(n + 3, depth - 1), Rank(Rest(ends), depth - 1, n));
    }
  }

  /** The rank drops when the sequences agree before position k and level k of `after` ends later,
      or exists where `before` has none. */
  lemma {:induction false} RankDrops(before: seq<nat>, after: seq<nat>, k: nat, depth: nat, n: nat)
    requires k < depth && k < |after| && k <= |before|
    requires forall i :: 0 <= i < k ==> before[i] == after[i]
    requires after[k] <= n && (k < |before| ==> before[k] < after[k])
    ensures Rank(after, depth, n) < Rank(before, depth, n)
    decreases k
  {
    if k == 0 {
      RankBound(Rest(after), depth - 1, n);
      LeadingDigit(Digit(after, 0, n), Digit(before, 0, n), Pow(n + 3, depth - 1), Rank(Rest(after), depth - 1, n));
    } else {
      assert Digit(after, 0, n) == Digit(before, 0, n);
      RankDrops(Rest(before), Rest(after), k - 1, depth - 1, n);
    }
  }

  // ------------------------------------------------------- numbers of conflicts

  /** More conflicts than a single search can have: every rank is smaller. */
  function MaxConflicts(vars: nat, assumptions: nat): nat { Pow(vars + 3, assumptions + vars + 2) }

  /** The sum of the first n budgets. */
  function Total(budget: nat -> nat, n: nat): nat {
    if n == 0 then 0 else Total(budget, n - 1) + budget(n - 1)
  }

  lemma TotalNone(budget: nat -> nat)
    ensures Total(budget, 0) == 0
  {}

  lemma TotalNext(budget: nat -> nat, n: nat)
    ensures Total(budget, n + 1) == Total(budget, n) + budget(n)
  {}
}
