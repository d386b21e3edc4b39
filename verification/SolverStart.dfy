/** What the solver is started with: dependencies from the extractor, and solvers that keep their promises. */
module SolverStart {
  import opened Basics
  import opened Dqbf
  import opened Arbiters
  import opened SkolemRules
  import opened SkolemFamily
  import opened ValidityCheck
  import opened PedantSolver
  import DependencyTables
  import ExtendedOrder

  /** Extended dependencies, as the extractor finds them. */
  ghost function SetsOf(lists: map<int, seq<int>>): map<int, set<int>> {
    map v | v in lists :: DependencyTables.Elements(lists[v])
  }

  /** The extractor's result is what the solver expects. */
  lemma ExtractedFits(q: Formula, lists: map<int, seq<int>>)
    requires WellFormed(q) && ExtendedOrder.IsExtended(lists, q.deps)
    ensures ExtendedOk(q, SetsOf(lists)) && Layered(q, SetsOf(lists))
  {
    var d, ext := q.deps, SetsOf(lists);
    assert ext.Keys == d.Keys;
    forall x | x in d ensures ext[x] == d[x] + ExtendedOrder.Lower(d, x) {}
    hide ExtendedOrder.IsExtended, SetsOf, ExtendedOrder.Before;
    forall x, y | x in d && y in d && y in ext[x] ensures Precedes(q, y, x) && d[y] <= d[x] && ext[y] * d.Keys <= ext[x] {
      LowerPrecedes(q, x, y);
    }
    forall x | x in d ensures ext[x] * q.universals == d[x] { assert ExtendedOrder.Lower(d, x) <= d.Keys; }
  }

  lemma LowerPrecedes(q: Formula, x: int, y: int)
    requires WellFormed(q) && x in q.deps && y in q.deps && y in q.deps[x] + ExtendedOrder.Lower(q.deps, x)
    ensures Precedes(q, y, x) && q.deps[y] <= q.deps[x]
    ensures (q.deps[y] + ExtendedOrder.Lower(q.deps, y)) * q.deps.Keys <= q.deps[x] + ExtendedOrder.Lower(q.deps, x)
  {
    assert y !in q.deps[x] && q.deps[y] !! q.deps.Keys;
    SubsetCard(q.deps[y], q.deps[x]);
    ExtendedOrder.BeforeIsStrict(q.deps);
  }

  /** Nothing that the solver asks for depends on the truth of the formula. */
  lemma StartExists(q: Formula)
    requires WellFormed(q)
    ensures exists ext: map<int, set<int>>, v: ValidityQuery, c: ConsistencyQuery, f: CoreFinder, sat: ModelFinder, d: DefaultChooser ::
              ExtendedOk(q, ext) && Layered(q, ext) && AnswersValidity(q, v) && AnswersConsistency(q, c) && FindsCores(f)
              && FindsModels(sat) && ChoosesDefaults(q, ext, d)
  {
    SolversExist(q);
    FindersExist();
    var v: ValidityQuery, c: ConsistencyQuery, f: CoreFinder :| AnswersValidity(q, v) && AnswersConsistency(q, c) && FindsCores(f);
    var sat: ModelFinder :| FindsModels(sat);
    var ext := q.deps;
    var d: DefaultChooser := n => map x | x in q.deps :: [[x]];
    forall x | x in q.deps ensures DefaultFits(q, ext, x, [[x]]) {}
    assert forall n :: d(n).Keys == q.deps.Keys;
    assert ChoosesDefaults(q, ext, d);
    forall x | x in q.deps ensures ext[x] * q.universals == q.deps[x] {}
    assert ExtendedOk(q, ext) && Layered(q, ext);
  }
}
