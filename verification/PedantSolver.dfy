/** The main loop of the solver: find a conflict, learn from it, find new arbiter values. */
module PedantSolver {
  import opened Basics
  import opened Dqbf
  import opened Arbiters
  import opened SkolemRules
  import opened SkolemFamily
  import opened ValidityCheck
  import opened ValidityCheckers
  import opened SolverProgress

  datatype Config = Config(useForcingClauses: bool, alwaysAddArbiterClause: bool, arbitersInForcingClauses: bool,
                           forcingClausesFromMatrix: bool)

  /** What the solver for arbiter clauses reports: a model, or nothing. */
  type ModelFinder = seq<Clause> -> Option<Valuation>

  /** The default clauses in use at each iteration. */
  type DefaultChooser = nat -> map<int, seq<Clause>>

  ghost predicate FindsModels(sat: ModelFinder) {
    forall f :: if sat(f).Some? then AllSat(sat(f).value, f) else Refuted(f)
  }

  ghost predicate ChoosesDefaults(q: Formula, ext: map<int, set<int>>, defaults: DefaultChooser) {
    forall n :: DefaultsFit(q, ext, defaults(n))
  }

  /** Such solvers exist for every formula, true or false. */
  lemma FindersExist()
    ensures exists sat: ModelFinder :: FindsModels(sat)
  {
    var sat: ModelFinder := f => SomeModel(f);
    assert FindsModels(sat);
  }

  ghost function SomeModel(f: seq<Clause>): Option<Valuation> {
    if exists val: Valuation :: AllSat(val, f) then
      var val: Valuation :| AllSat(val, f);
      Some(val)
    else None
  }

  function NegateEach(ls: seq<int>): (r: seq<int>)
    ensures r == Negated(ls)
  {
    if ls == [] then [] else NegateEach(ls[..|ls| - 1]) + [-ls[|ls| - 1]]
  }

  class Solver {
    const q: Formula
    const ext: map<int, set<int>>
    const config: Config
    const checker: SimpleValidityChecker
    var lastUsed: int
    var arbiterOf: map<(int, seq<int>), int>
    var arbs: map<int, Arbiter>
    var proper: set<int>
    var extraction: seq<Clause>
    var forced: map<int, seq<Clause>>
    var arbiterClauses: seq<Clause>
    var arbiterVariables: seq<int>
    var arbiterAssignment: seq<int>

    function Snap(): State
      reads this
    {
      State(lastUsed, arbs, proper, extraction, arbiterClauses)
    }

    /** The functions that the checks look at. */
    function Current(defaults: map<int, seq<Clause>>): Candidate
      reads this
    {
      Candidate(ext, forced, defaults, map a | a in arbs :: a in arbiterAssignment)
    }

    /** What has been learnt agrees with every winning family, and with what the checks are about. */
    ghost predicate Learned()
      reads this
    {
      && Sound(q, Snap()) && ExtendedOk(q, ext) && Layered(q, ext) && lastUsed >= 0
      && checker.Valid() && checker.q == q && q.matrix <= extraction
      && ForcedFit(q, ext, arbs.Keys, forced) && Entailing(extraction, forced)
      && (forall k :: k in arbiterOf ==> arbiterOf[k] in arbs && arbs[arbiterOf[k]] == Arbiter(k.0, k.1))
      && AllLinked(forced, proper, arbs) && Catalogued(q, checker.universals, arbs, arbiterOf)
    }

    /** Arbiters, clauses and values, as far as progress is concerned. */
    ghost function Stand(): Standing
      reads this
    {
      Standing(arbs.Keys, proper, Learnt(forced), arbiterClauses, LitsOf(arbiterAssignment))
    }

    /** Besides, every arbiter has a value. */
    ghost predicate Valid()
      reads this
    {
      Learned() && Complete(arbiterAssignment, arbs.Keys) && forall a :: a in arbiterVariables <==> a in arbs
    }

    constructor (formula: Formula, extended: map<int, set<int>>, settings: Config, maxVariable: nat,
                 existentials: seq<int>, universals: seq<int>)
      requires WellFormed(formula) && ExtendedOk(formula, extended) && Layered(formula, extended)
      requires (forall v :: v in Prefix(formula) ==> v <= maxVariable) && Lists(formula, existentials, universals)
      ensures Valid() && q == formula && ext == extended && config == settings && Snap() == StartState(formula, maxVariable)
    {
      q, ext, config := formula, extended, settings;
      checker := new SimpleValidityChecker(formula, existentials, universals);
      lastUsed, arbiterOf, arbs, proper := maxVariable, map[], map[], {};
      extraction, forced, arbiterClauses, arbiterVariables, arbiterAssignment := formula.matrix, map[], [], [], [];
      new;
      StartSound(formula, maxVariable);
    }

    /** The conflict existential with the largest extended dependencies, and whether it sees the others. */
    method HasForcingClause(es: seq<int>) returns (has: bool, literal: int)
      requires forall l :: l in es ==> l != 0 && Abs(l) in ext
      ensures has ==> es != []
      ensures es != [] ==> literal in es && (has <==> Sees(ext, es, Abs(literal)))
      ensures forall l :: l in es ==> |ext[Abs(l)]| <= |ext[Abs(literal)]|
      ensures Layered(q, ext) && ExtendedOk(q, ext) ==> (has <==> exists l :: l in es && Sees(ext, es, Abs(l)))
    {
      if es == [] {
        return false, 0;
      }
      var seen: set<int> := {};
      literal := 0;
      for i := 0 to |es|
        invariant if i == 0 then literal == 0 else literal in es
        invariant seen == set l | l in es[..i] :: Abs(l)
        invariant forall l :: l in es[..i] ==> literal != 0 && |ext[Abs(l)]| <= |ext[Abs(literal)]|
      {
        assert es[..i + 1] == es[..i] + [es[i]];
        seen := seen + {Abs(es[i])};
        if literal == 0 || |ext[Abs(es[i])]| > |ext[Abs(literal)]| {
          literal := es[i];
        }
      }
      assert es[..|es|] == es;
      seen := seen - {Abs(literal)};
      has := seen <= ext[Abs(literal)];
      assert has ==> forall l :: l in es && Abs(l) != Abs(literal) ==> Abs(l) in seen;
      if Sees(ext, es, Abs(literal)) {
        forall v | v in seen ensures v in ext[Abs(literal)] {}
      }
      if Layered(q, ext) && ExtendedOk(q, ext) && exists l :: l in es && Sees(ext, es, Abs(l)) {
        SeesLargest(q, ext, es, literal);
      }
    }

    method GetForcingClause(literal: int, c: Conflict) returns (clause: Clause, reduced: bool)
      requires Abs(literal) in ext
      ensures clause == ForcingClause(ext, literal, c.existentials, c.universals, c.arbiters)
      ensures reduced <==> |Restricted(c.existentials + c.universals, ext[Abs(literal)])| < |c.existentials| + |c.universals|
    {
      clause := Restricted(c.existentials + c.universals, ext[Abs(literal)]);
      reduced := |clause| < |c.existentials| + |c.universals|;
      clause := clause + c.arbiters;
      clause := NegateEach(clause);
      clause := clause + [literal];
    }

    /** The forced variable does not see the whole conflict. */
    ghost predicate Reduced(c: Conflict, forcedLiteral: int)
      requires Abs(forcedLiteral) in ext
    {
      |Restricted(c.existentials + c.universals, ext[Abs(forcedLiteral)])| < |c.existentials| + |c.universals|
    }

    /** Learn that the negation of the forced literal follows from what its variable sees. */
    method AnalyzeForcingConflict(forcedLiteral: int, c: Conflict)
      requires Valid() && Learnable(q, ext, Snap(), c, forcedLiteral)
      modifies `extraction, `forced
      ensures Valid() && Later(old(Snap()), Snap()) && Abs(forcedLiteral) in ext
      ensures var f := ForcingClause(ext, -forcedLiteral, c.existentials, c.universals, c.arbiters);
              && forced == (if config.useForcingClauses then AddBody(old(forced), -forcedLiteral, Body(f)) else old(forced))
              && extraction == old(extraction) + (if config.useForcingClauses && Reduced(c, forcedLiteral) then [f] else [])
    {
      hide Sound, Later, Learnable, ForcedFit, Entailing, Layered, AllLinked, Catalogued;
      LearnLearnable(q, ext, Snap(), c, forcedLiteral);
      var clause, reduced := GetForcingClause(-forcedLiteral, c);
      LaterSelf(Snap());
      if config.useForcingClauses {
        AddForcingClause(clause, reduced, forcedLiteral, c);
      }
    }

    /** The checks use the clause; conflicts need it only if it says more than what is known. */
    method AddForcingClause(clause: Clause, reduced: bool, ghost forcedLiteral: int, ghost c: Conflict)
      requires Valid() && Learnable(q, ext, Snap(), c, forcedLiteral)
      requires Sound(q, Snap().(extraction := extraction + [clause]))
      requires clause == ForcingClause(ext, -forcedLiteral, c.existentials, c.universals, c.arbiters)
      requires reduced <==> Reduced(c, forcedLiteral)
      modifies `extraction, `forced
      ensures Valid() && Later(old(Snap()), Snap())
      ensures forced == AddBody(old(forced), -forcedLiteral, Body(clause))
      ensures extraction == old(extraction) + if reduced then [clause] else []
    {
      hide Sound, Later, Learnable, ForcedFit, Entailing, Layered, ForcingClause, Restricted, ExtendedOk, AllLinked, Catalogued;
      LinkedStays(forced, -forcedLiteral, Body(clause), proper, arbs);
      ghost var st := Snap();
      SoundRegistered(q, st);
      ExtendedKeys(q, ext);
      ForcingFits(q, ext, st, c, forcedLiteral);
      LaterSelf(st);
      ForcedVariable(q, ext, st, c, forcedLiteral);
      FitNext(q, ext, arbs.Keys, forced, -forcedLiteral, Body(clause));
      if reduced {
        EntailingMore(extraction, [clause], forced);
        LaterExtraction(st, [clause]);
        forall val: Valuation | AllSat(val, extraction + [clause]) ensures Sat(val, Body(clause) + [-forcedLiteral]) {
          LastHolds(val, extraction + [clause], clause);
        }
        EntailingNext(extraction + [clause], forced, -forcedLiteral, Body(clause));
      } else {
        RestrictedWhole(c.existentials + c.universals, ext[Abs(forcedLiteral)]);
        forall val: Valuation | AllSat(val, extraction) ensures Sat(val, Body(clause) + [-forcedLiteral]) {
          UnreducedEntailed(q, ext, st, c, forcedLiteral, val);
        }
        EntailingNext(extraction, forced, -forcedLiteral, Body(clause));
      }
      forced := AddBody(forced, Head(clause), Body(clause));
      if reduced {
        extraction := extraction + [clause];
      }
    }

    /** The arbiter of an existential under a complete assignment of the universals. */
    method GetArbiter(l: int, complete: seq<int>, introduce: bool, ghost w: Valuation) returns (literal: int)
      requires Valid() && l != 0 && Abs(l) in q.deps && Complete(complete, q.universals)
      requires complete == Assigned(w, checker.universals)
      modifies `lastUsed, `arbiterOf, `arbs, `proper, `extraction, `forced, `arbiterVariables, `arbiterAssignment
      ensures Valid() && Later(old(Snap()), Snap()) && Blames(q, arbs, [l], complete, [literal])
      ensures Advances(old(Stand()), Stand()) && (introduce ==> Abs(literal) in proper)
      ensures SameArbiters(old(Stand()), Stand()) ==> arbs == old(arbs) && forced == old(forced)
    {
      hide Sound, Later, ForcedFit, Entailing, Layered, ExtendedOk, Blames, Restricted, AllLinked, Catalogued, Learnt;
      ghost var st, stand := Snap(), Stand();
      SoundWellFormed(q, st);
      LaterSelf(st);
      var e := Abs(l);
      var annotation := Restricted(complete, q.deps[e]);
      AnnotationComplete(q, complete, e);
      CanonicalHere(q, checker.existentials, checker.universals, w, e);
      hide Complete, Positives, Canonical;
      if (e, annotation) !in arbiterOf {
        CreateArbiter(e, annotation);
        AssignArbiter(lastUsed, l, st.arbs.Keys);
      }
      var arbiter := arbiterOf[(e, annotation)];
      ArbiterPositive(q, Snap(), arbiter);
      if introduce && arbiter !in proper {
        ghost var st1 := Snap();
        RealizeArbiter(arbiter);
        LaterChain(st, st1, Snap());
      }
      literal := if l > 0 then arbiter else -arbiter;
      BlamesOne(q, arbs, l, complete, arbiter);
    }

    /** A new arbiter gets the value that its existential has in the conflict. */
    method AssignArbiter(arbiter: int, l: int, ghost before: set<int>)
      requires Learned() && arbiter !in before && arbs.Keys == before + {arbiter}
      requires Complete(arbiterAssignment, before) && forall a :: a in arbiterVariables <==> a in before
      modifies `arbiterVariables, `arbiterAssignment
      ensures Valid()
    {
      hide Sound, ForcedFit, Entailing, Layered, ExtendedOk, Complete, AllLinked, Catalogued;
      ArbitersFresh(q, Snap());
      var literal := if l > 0 then arbiter else -arbiter;
      CompleteNext(arbiterAssignment, before, literal);
      arbiterVariables := arbiterVariables + [arbiter];
      arbiterAssignment := arbiterAssignment + [literal];
    }

    method CreateArbiter(e: int, annotation: seq<int>)
      requires Learned() && e in q.deps && Complete(annotation, q.deps[e]) && (e, annotation) !in arbiterOf
      requires annotation == Canonical(checker.universals, q.deps[e], Positives(annotation)) && Positives(annotation) <= q.universals
      modifies `lastUsed, `arbs, `arbiterOf
      ensures Learned() && Later(old(Snap()), Snap())
      ensures (e, annotation) in arbiterOf && arbiterOf[(e, annotation)] == lastUsed
      ensures lastUsed !in old(arbs) && arbs.Keys == old(arbs.Keys) + {lastUsed}
      ensures proper == old(proper)
    {
      hide Sound, Complete, ForcedFit, Entailing, Layered, ExtendedOk, Linked, Canonical, Positives;
      AddArbiter(q, Snap(), Arbiter(e, annotation));
      FitGrows(q, ext, arbs.Keys, arbs.Keys + {lastUsed + 1}, forced);
      lastUsed := lastUsed + 1;
      arbs := arbs[lastUsed := Arbiter(e, annotation)];
      assert arbs.Keys == old(arbs.Keys) + {lastUsed};
      arbiterOf := arbiterOf[(e, annotation) := lastUsed];
    }

    /** Tie the arbiter to its existential, for conflicts and for the checks. */
    method RealizeArbiter(arbiter: int)
      requires Learned() && arbiter in arbs
      modifies `extraction, `forced, `proper
      ensures Learned() && Later(old(Snap()), Snap())
      ensures proper == old(proper) + {arbiter} && Learnt(old(forced)) <= Learnt(forced)
      ensures extraction == old(extraction) + LinkClauses(arbiter, arbs[arbiter])
    {
      hide Sound, ForcedFit, Entailing, Layered, ExtendedOk, AllLinked, Catalogued, Learnt;
      ghost var forced0 := forced;
      LearnLinks(q, Snap(), arbiter);
      SoundRegistered(q, Snap());
      LinksFit(q, ext, Snap(), arbiter);
      var a := arbs[arbiter];
      var positive := NegateEach(a.annotation);
      positive := positive + [-arbiter];
      AddArbiterClause(positive, a.existential);
      ghost var forced1 := forced;
      var negative := NegateEach(a.annotation);
      negative := negative + [arbiter];
      AddArbiterClause(negative, -a.existential);
      proper := proper + {arbiter};
      assert [-arbiter] + [a.existential] == [-arbiter, a.existential] && [arbiter] + [-a.existential] == [arbiter, -a.existential];
      assert positive + [a.existential] == Negated(a.annotation) + ([-arbiter] + [a.existential]);
      assert negative + [-a.existential] == Negated(a.annotation) + ([arbiter] + [-a.existential]);
      assert extraction == old(extraction) + LinkClauses(arbiter, a);
      NewlyLinked(forced0, forced1, forced, old(proper), arbs, arbiter, a.existential, positive, negative);
    }

    method AddArbiterClause(body: Clause, l: int)
      requires ForcedFit(q, ext, arbs.Keys, forced) && Entailing(extraction, forced)
      requires Abs(l) in q.deps && OverVars(body, Visible(q, ext, Abs(l)) + arbs.Keys)
      modifies `extraction, `forced
      ensures extraction == old(extraction) + [body + [l]] && forced == AddBody(old(forced), l, body)
      ensures ForcedFit(q, ext, arbs.Keys, forced) && Entailing(extraction, forced)
    {
      hide ForcedFit, Entailing, Visible;
      FitNext(q, ext, arbs.Keys, forced, l, body);
      EntailingMore(extraction, [body + [l]], forced);
      extraction := extraction + [body + [l]];
      forall val: Valuation | AllSat(val, extraction) ensures Sat(val, body + [l]) { LastHolds(val, extraction, body + [l]); }
      EntailingNext(extraction, forced, l, body);
      forced := AddBody(forced, l, body);
    }

    /** The candidate is what the solver knows now. */
    ghost predicate Views(k: Candidate)
      reads this
    {
      k.ext == ext && k.forced == forced && k.values == map a | a in arbs :: a in arbiterAssignment
    }

    static function Last(f: seq<Clause>): Clause { if f == [] then [] else f[|f| - 1] }

    /** The clause that rules out the arbiter values behind a conflict. */
    method LearnFromArbiters(c: Conflict, introduce: bool, ghost k: Candidate, ghost w: Valuation)
      requires Valid() && IsCore(q, Snap(), c) && c.complete == Assigned(w, checker.universals)
      requires introduce ==> Views(k) && Witnessed(q, k, c, w, checker.universals)
      modifies this
      ensures Valid() && Later(old(Snap()), Snap()) && arbiterClauses == old(arbiterClauses) + [Last(arbiterClauses)]
      ensures ArbiterClause(q, arbs, c, Last(arbiterClauses))
      ensures Advances(old(Stand()), Stand())
      ensures introduce && SameArbiters(old(Stand()), Stand()) ==> SomeFalsified(arbiterClauses, LitsOf(old(arbiterAssignment)))
    {
      hide Sound, Later, IsCore, Blames, ForcedFit, Entailing, Layered, ExtendedOk, Complete, AllLinked, Catalogued, Learnt,
           Witnessed, Falsified;
      ghost var st, values0 := Snap(), arbiterAssignment;
      if introduce { ViewedArbiters(q, st, k, c, arbiterAssignment); }
      var clause, bs := BlameArbiters(c, introduce, k, w);
      CoreStays(q, st, Snap(), c);
      LearnArbiterClause(q, Snap(), c, bs);
      ghost var st2, stand := Snap(), Stand();
      arbiterClauses := arbiterClauses + [clause];
      LaterClause(st2, clause);
      LaterChain(st, st2, Snap());
      if introduce && SameArbiters(old(Stand()), Stand()) {
        BlamedFalsified(q, k, c, w, checker.universals, bs, values0);
        assert arbiterClauses[|arbiterClauses| - 1] == clause;
      }
    }

    /** The negated literals of the conflict's arbiters and of the arbiters of its existentials. */
    method BlameArbiters(c: Conflict, introduce: bool, ghost k: Candidate, ghost w: Valuation) returns (clause: Clause, ghost bs: seq<int>)
      requires Valid() && IsCore(q, Snap(), c) && c.complete == Assigned(w, checker.universals)
      requires introduce ==> Views(k) && Witnessed(q, k, c, w, checker.universals)
      modifies `lastUsed, `arbiterOf, `arbs, `proper, `extraction, `forced, `arbiterVariables, `arbiterAssignment
      ensures Valid() && Later(old(Snap()), Snap()) && Blames(q, arbs, c.existentials, c.complete, bs)
      ensures clause == Negated(c.arbiters) + Negated(bs) && Advances(old(Stand()), Stand())
      ensures introduce && SameArbiters(old(Stand()), Stand()) ==> AllIn(bs, old(arbiterAssignment))
    {
      hide Sound, Later, IsCore, Blames, ForcedFit, Entailing, Layered, ExtendedOk, Complete, AllLinked, Catalogued, Learnt,
           Witnessed, AllIn, Advances, SameArbiters, Negated;
      ghost var st, stand := Snap(), Stand();
      ghost var forced0, values0 := forced, arbiterAssignment;
      clause := NegateEach(c.arbiters);
      bs := [];
      CoreParts(q, st, c);
      LaterSelf(st);
      StandSelf(stand);
      NothingBlamed(q, arbs, c);
      NegatedNone(clause);
      assert AllIn([], values0) by { NoneIn(values0); }
      for i := 0 to |c.existentials|
        invariant Valid() && Later(st, Snap()) && clause == Negated(c.arbiters) + Negated(bs)
        invariant Blames(q, arbs, c.existentials[..i], c.complete, bs) && arbiterClauses == st.arbiterClauses
        invariant Advances(stand, Stand())
        invariant SameArbiters(stand, Stand()) ==> arbs == st.arbs && forced == forced0
        invariant introduce && SameArbiters(stand, Stand()) ==> AllIn(bs, values0)
      {
        ghost var st1, stand1 := Snap(), Stand();
        var literal := GetArbiter(c.existentials[i], c.complete, introduce, w);
        AdvancesChain(stand, stand1, Stand());
        LaterChain(st, st1, Snap());
        BlamesStays(q, st1, Snap(), c.existentials[..i], c.complete, bs);
        BlamesNext(q, arbs, c.existentials, i, c.complete, bs, literal);
        NegatedNext(bs, literal);
        if introduce && SameArbiters(stand, Stand()) {
          SameStand(stand, Stand());
          BlamedTrue(q, Snap(), k, c, w, checker.existentials, checker.universals, i, literal, values0);
          AllInNext(bs, literal, values0);
        }
        assert clause + [-literal] == Negated(c.arbiters) + (Negated(bs) + [-literal]);
        clause := clause + [-literal];
        bs := bs + [literal];
      }
      assert c.existentials[..|c.existentials|] == c.existentials;
    }

    /** The forcing clause of a conflict is new. */
    method TeachForcing(literal: int, c: Conflict, ghost k: Candidate, ghost w: Valuation)
      requires Valid() && IsCore(q, Snap(), c) && config.useForcingClauses
      requires Views(k) && Witnessed(q, k, c, w, checker.universals)
      requires literal in c.existentials && Abs(literal) in ext && Sees(ext, c.existentials, Abs(literal))
      modifies `extraction, `forced
      ensures Valid() && Later(old(Snap()), Snap()) && ForcedByConflict(ext, c, old(forced), forced)
      ensures Advances(old(Stand()), Stand()) && |Learnt(old(forced))| < |Learnt(forced)|
    {
      hide Sound, Later, IsCore, Shaped, Unsatisfiable, ForcedFit, Entailing, Layered, Complete, AllLinked, Catalogued, Learnt,
           Witnessed, Sees, ForcedByConflict;
      ForcingAdds(q, Snap(), k, c, literal, w, checker.universals);
      AnalyzeForcingConflict(literal, c);
      ForcedByLiteral(ext, c, literal, old(forced), forced);
    }

    /** Learn a forcing clause or an arbiter clause from a conflict. */
    method AnalyzeConflict(c: Conflict, ghost k: Candidate, ghost w: Valuation) returns (hasForcing: bool)
      requires Valid() && IsCore(q, Snap(), c)
      requires Views(k) && Witnessed(q, k, c, w, checker.universals)
      modifies this
      ensures Valid() && Later(old(Snap()), Snap())
      ensures if hasForcing && !config.alwaysAddArbiterClause then arbiterClauses == old(arbiterClauses)
              else arbiterClauses == old(arbiterClauses) + [Last(arbiterClauses)] && ArbiterClause(q, arbs, c, Last(arbiterClauses))
      ensures hasForcing <==> (config.arbitersInForcingClauses || c.arbiters == [])
                              && exists l :: l in c.existentials && Sees(ext, c.existentials, Abs(l))
      ensures Advances(old(Stand()), Stand())
      ensures hasForcing && config.useForcingClauses ==> |Learnt(old(forced))| < |Learnt(forced)|
      ensures hasForcing && config.useForcingClauses && !config.alwaysAddArbiterClause ==>
                ForcedByConflict(ext, c, old(forced), forced)
      ensures hasForcing && !config.useForcingClauses && !config.alwaysAddArbiterClause ==> Snap() == old(Snap())
      ensures !hasForcing && SameArbiters(old(Stand()), Stand()) ==> SomeFalsified(arbiterClauses, LitsOf(old(arbiterAssignment)))
    {
      hide Sound, Later, IsCore, Shaped, Unsatisfiable, ForcedFit, Entailing, Layered, Complete, AllLinked, Catalogued, Learnt,
           Witnessed, Sees, SomeFalsified, ArbiterClause, ForcedByConflict;
      ghost var st, stand := Snap(), Stand();
      CoreParts(q, st, c);
      ExtendedKeys(q, ext);
      WitnessComplete(q, k, c, w, checker.universals);
      var literal := 0;
      hasForcing := false;
      LaterSelf(st);
      if config.arbitersInForcingClauses || c.arbiters == [] {
        hasForcing, literal := HasForcingClause(c.existentials);
      }
      if hasForcing {
        if config.useForcingClauses { TeachForcing(literal, c, k, w); }
        if !config.alwaysAddArbiterClause {
          return;
        }
      }
      ghost var st1, stand1 := Snap(), Stand();
      CoreStays(q, st, st1, c);
      LearnFromArbiters(c, !hasForcing, k, w);
      LaterChain(st, st1, Snap());
      AdvancesChain(stand, stand1, Stand());
      if hasForcing && config.useForcingClauses { SubsetCard(stand1.learnt, Learnt(forced)); }
    }

    /** Forcing clauses that clauses of the matrix amount to. */
    method ForcingClausesFromMatrix()
      requires Valid() && forall i :: 0 <= i < |q.matrix| ==> ForcesSafely(q, ext, q.matrix[i])
      modifies `extraction, `forced
      ensures Valid() && Later(old(Snap()), Snap()) && Advances(old(Stand()), Stand())
      ensures config.useForcingClauses ==> forall i :: 0 <= i < |q.matrix| ==> TakenOver(q, ext, forced, q.matrix[i])
    {
      hide Sound, Later, ForcesSafely, ForcedFit, Entailing, Layered, ExtendedOk, Complete, AllLinked, Catalogued, Learnt,
           TakenOver, Kept;
      ghost var st, stand := Snap(), Stand();
      LaterSelf(st);
      SoundRegistered(q, st);
      for i := 0 to |q.matrix|
        invariant Valid() && Later(st, Snap()) && Advances(stand, Stand())
        invariant config.useForcingClauses ==> forall j :: 0 <= j < i ==> TakenOver(q, ext, forced, q.matrix[j])
      {
        ghost var st1, stand1, forced1 := Snap(), Stand(), forced;
        ForceFromClause(q.matrix[i]);
        LaterPrefix(q.matrix, st1, Snap());
        LaterChain(st, st1, Snap());
        AdvancesChain(stand, stand1, Stand());
        forall j | 0 <= j < i && config.useForcingClauses ensures TakenOver(q, ext, forced, q.matrix[j]) {
          TakenStays(q, ext, forced1, forced, q.matrix[j]);
        }
      }
    }

    method ForceFromClause(clause: Clause)
      requires Valid() && clause in q.matrix && OverVars(clause, Prefix(q)) && ForcesSafely(q, ext, clause)
      modifies `extraction, `forced
      ensures Valid() && Later(old(Snap()), Snap()) && Advances(old(Stand()), Stand())
      ensures Kept(old(forced), forced) && (config.useForcingClauses ==> TakenOver(q, ext, forced, clause))
    {
      hide Sound, Later, ForcedFit, Entailing, Layered, Complete, Shaped, Unsatisfiable, NoComplement, Restricted, Negated,
           ExtendedOk, OverVars, Registered, Sees, ForcesSafely, Learnable, AllLinked, Catalogued, Learnt, Kept, TakenOver;
      ghost var forced0 := forced;
      LaterSelf(Snap());
      KeptSelf(forced);
      SoundRegistered(q, Snap());
      ExtendedKeys(q, ext);
      InPrefix(q.matrix, extraction, clause);
      var es, us := Restricted(clause, q.deps.Keys), Restricted(clause, q.universals);
      NonZero(clause, Prefix(q));
      forall l | l in es ensures l != 0 && Abs(l) in ext {
        RestrictedIn(clause, q.deps.Keys, l);
      }
      var has, literal := HasForcingClause(es);
      if has {
        var c := Conflict(NegateEach(es), NegateEach(us), [], []);
        SafeIsLearnable(q, ext, Snap(), clause, literal);
        AnalyzeForcingConflict(-literal, c);
        if config.useForcingClauses { MatrixTaken(q, ext, forced0, forced, clause, literal); }
      } else {
        NothingToTake(q, ext, forced, clause);
      }
    }

    /** New arbiter values that satisfy what is known, or the answer that there are none. */
    method FindArbiterAssignment(sat: ModelFinder) returns (found: bool)
      requires Valid() && FindsModels(sat)
      modifies `arbiterAssignment
      ensures Valid() && Snap() == old(Snap())
      ensures !found ==> !IsTrue(q)
      ensures found ==> Satisfied(arbiterClauses, LitsOf(arbiterAssignment))
    {
      hide Sound, ForcedFit, Entailing, Layered, ExtendedOk, AllLinked, Catalogued;
      var model := sat(arbiterClauses);
      if model.None? {
        RefutedIsFalse(q, Snap());
        return false;
      }
      forall i | 0 <= i < |arbiterVariables| ensures arbiterVariables[i] > 0 && arbiterVariables[i] in arbs.Keys {
        assert arbiterVariables[i] in arbiterVariables;
        ArbiterPositive(q, Snap(), arbiterVariables[i]);
      }
      arbiterAssignment := Assigned(model.value, arbiterVariables);
      AssignedFull(model.value, arbiterVariables, arbs.Keys);
      AssignmentSatisfies(q, Snap(), model.value, arbiterVariables);
      found := true;
    }

    /** The candidate under the given defaults passes the checks, or there is a core of its failure. */
    method CheckCandidate(defaults: map<int, seq<Clause>>, validity: ValidityQuery, consistency: ConsistencyQuery, core: CoreFinder)
        returns (passed: bool, c: Conflict, ghost w: Valuation)
      requires Valid() && DefaultsFit(q, ext, defaults)
      requires AnswersValidity(q, validity) && AnswersConsistency(q, consistency) && FindsCores(core)
      modifies checker
      ensures Valid() && Snap() == old(Snap()) && Current(defaults) == old(Current(defaults)) && Stand() == old(Stand())
      ensures passed ==> Winning(q, RuleFamily(q, Current(defaults)))
      ensures !passed ==> IsCore(q, Snap(), c) && Witnessed(q, Current(defaults), c, w, checker.universals)
    {
      hide Sound, Fits, Failing, Whole, Winning, IsCore, Entailing, AnswersValidity, AnswersConsistency, FindsCores, Witnessed,
           AllLinked, Catalogued;
      var k := Current(defaults);
      CurrentFits(q, Snap(), k, arbiterAssignment);
      passed, w := checker.CheckArbiterAssignment(k, arbiterAssignment, validity, consistency);
      c := Conflict([], [], [], []);
      if !passed {
        c := checker.GetConflict(extraction, core, Snap(), k, w);
      }
    }

    /** Learning from a conflict, and new arbiter values unless a forcing clause makes them unnecessary. */
    method Refine(c: Conflict, unchecked0: nat, sat: ModelFinder, ghost k: Candidate, ghost w: Valuation, ghost tried0: set<Trial>)
        returns (refuted: bool, unchecked: nat, ghost tried: set<Trial>)
      requires Valid() && IsCore(q, Snap(), c) && FindsModels(sat)
      requires Views(k) && Witnessed(q, k, c, w, checker.universals) && AllExcluded(tried0, Stand())
      modifies this
      ensures Valid() && Later(old(Snap()), Snap())
      ensures refuted ==> !IsTrue(q)
      ensures !refuted ==> AllExcluded(tried, Stand())
      ensures !refuted && config.useForcingClauses ==> |Learnt(old(forced))| + |tried0| < |Learnt(forced)| + |tried|
    {
      hide Sound, ForcedFit, Entailing, ExtendedOk, Layered, Complete, IsCore, AllLinked, Catalogued, Learnt, Later, Witnessed,
           Advances, AllExcluded, SameArbiters, Satisfied, SomeFalsified, Signed;
      ghost var stand := Stand();
      StandParts(arbs, proper, forced, arbiterAssignment);
      refuted, unchecked, tried := false, unchecked0, tried0;
      var hasForcing := AnalyzeConflict(c, k, w);
      ghost var after := Stand();
      ExcludedAdvance(tried0, stand, after);
      LearntMore(stand, after);
      if hasForcing {
        unchecked := unchecked + 1;
        if unchecked % 600 == 0 {
          unchecked := 0;
        } else {
          return;
        }
      } else {
        TrialIsNew(tried0, stand, after);
        tried := tried0 + {TrialOf(stand)};
      }
      var found := FindArbiterAssignment(sat);
      if !found {
        return true, unchecked, tried;
      }
      if hasForcing { ExcludedModel(tried0, after, arbiterAssignment); }
      assert Stand() == after.(values := LitsOf(arbiterAssignment));
    }

    /** 10: the candidate is a model; 20: no Skolem family is a model; 0: interrupted. */
    method Solve(validity: ValidityQuery, consistency: ConsistencyQuery, core: CoreFinder, sat: ModelFinder,
                 defaults: DefaultChooser, interruptAfter: nat) returns (result: int, ghost conflicts: seq<Conflict>)
      requires Valid() && AnswersValidity(q, validity) && AnswersConsistency(q, consistency) && FindsCores(core)
      requires FindsModels(sat) && ChoosesDefaults(q, ext, defaults)
      requires config.forcingClausesFromMatrix ==> forall i :: 0 <= i < |q.matrix| ==> ForcesSafely(q, ext, q.matrix[i])
      modifies this, checker
      ensures Valid() && result in {0, 10, 20}
      ensures result == 20 ==> !IsTrue(q)
      ensures result == 10 ==> IsTrue(q) && exists n :: Winning(q, RuleFamily(q, Current(defaults(n))))
      ensures result == 0 ==> |conflicts| == interruptAfter && forall i :: 0 <= i < |conflicts| ==> IsCore(q, Snap(), conflicts[i])
      ensures config.useForcingClauses && interruptAfter > MaxConflicts(q) ==> result != 0
    {
      hide Sound, ForcedFit, Entailing, ExtendedOk, Layered, Complete, DefaultsFit, Winning, IsCore, AnswersValidity,
           AnswersConsistency, FindsCores, AllLinked, Catalogued, Learnt, Later, Witnessed, AllExcluded;
      if config.forcingClausesFromMatrix {
        ForcingClausesFromMatrix();
      }
      var iteration, unchecked := 0, 0;
      ghost var tried: set<Trial> := {};
      conflicts := [];
      assert AllExcluded(tried, Stand()) by { NothingTried(Stand()); }
      while iteration < interruptAfter
        invariant Valid() && AllExcluded(tried, Stand()) && |conflicts| == iteration <= interruptAfter
        invariant forall i :: 0 <= i < |conflicts| ==> IsCore(q, Snap(), conflicts[i])
        invariant config.useForcingClauses ==> iteration <= |Learnt(forced)| + |tried|
      {
        iteration := iteration + 1;
        var passed, conflict, w := CheckCandidate(defaults(iteration), validity, consistency, core);
        if passed {
          return 10, conflicts;
        }
        ghost var st := Snap();
        var refuted;
        conflicts := conflicts + [conflict];
        refuted, unchecked, tried := Refine(conflict, unchecked, sat, Current(defaults(iteration)), w, tried);
        if refuted {
          return 20, conflicts;
        }
        forall i | 0 <= i < |conflicts| ensures IsCore(q, Snap(), conflicts[i]) { CoreStays(q, st, Snap(), conflicts[i]); }
      }
      ConflictsBounded(q, ext, checker.universals, arbs, arbiterOf, forced, tried, Stand());
      result := 0;
    }
  }

  lemma InPrefix(f: seq<Clause>, more: seq<Clause>, c: Clause)
    requires f <= more && c in f
    ensures c in more
  {
    var i :| 0 <= i < |f| && f[i] == c;
    assert more[i] == c;
  }

  lemma NothingTried(s: Standing)
    ensures AllExcluded({}, s)
  {}

  lemma StandParts(arbs: map<int, Arbiter>, proper: set<int>, forced: map<int, seq<Clause>>, values: seq<int>)
    requires AllLinked(forced, proper, arbs) && Complete(values, arbs.Keys)
    ensures proper <= arbs.Keys && LitsOf(values) <= Signed(arbs.Keys)
  {
    AssignmentSigned(values, arbs.Keys);
    hide Linked;
    forall a | a in proper ensures a in arbs.Keys { assert a in arbs; }
  }

  lemma LearntMore(s: Standing, t: Standing)
    requires Advances(s, t)
    ensures |s.learnt| <= |t.learnt|
  {
    SubsetCard(s.learnt, t.learnt);
  }

  lemma AssignmentSatisfies(q: Formula, st: State, val: Valuation, variables: seq<int>)
    requires Sound(q, st) && AllSat(val, st.arbiterClauses) && forall a :: a in variables <==> a in st.arbs
    ensures Satisfied(st.arbiterClauses, LitsOf(Assigned(val, variables)))
  {
    ArbitersFresh(q, st);
    assert AllOver(st.arbiterClauses, st.arbs.Keys);
    forall v | v in variables ensures v > 0 { assert v in st.arbs.Keys; }
    hide Sound, Assigned;
    forall i | 0 <= i < |st.arbiterClauses|
      ensures Meets(st.arbiterClauses[i], LitsOf(Assigned(val, variables)))
    {
      var c := st.arbiterClauses[i];
      assert Sat(val, c) && OverVars(c, st.arbs.Keys);
      var j :| 0 <= j < |c| && True(val, c[j]);
      var l := c[j];
      AssignedIn(val, variables, l);
      assert l in c && Abs(l) in st.arbs.Keys;
      assert l in LitsOf(Assigned(val, variables));
    }
  }

  // ------------------------------------------------------- forcing clauses from the matrix

  /** If some existential of the clause sees the others, its forcing clause is known. */
  ghost predicate TakenOver(q: Formula, ext: map<int, set<int>>, forced: map<int, seq<Clause>>, c: Clause) {
    (exists l :: l in Restricted(c, q.deps.Keys) && Sees(ext, Restricted(c, q.deps.Keys), Abs(l))) ==>
      exists l :: l in Restricted(c, q.deps.Keys) && Sees(ext, Restricted(c, q.deps.Keys), Abs(l))
                  && Body(MatrixForcing(q, ext, c, l)) in BodiesOf(forced, l)
  }

  ghost predicate Kept(forced: map<int, seq<Clause>>, more: map<int, seq<Clause>>) {
    forall m, c :: c in BodiesOf(forced, m) ==> c in BodiesOf(more, m)
  }

  lemma KeptSelf(forced: map<int, seq<Clause>>)
    ensures Kept(forced, forced)
  {}

  lemma TakenStays(q: Formula, ext: map<int, set<int>>, forced: map<int, seq<Clause>>, more: map<int, seq<Clause>>, c: Clause)
    requires TakenOver(q, ext, forced, c) && Kept(forced, more)
    ensures TakenOver(q, ext, more, c)
  {
    hide Sees, Restricted, MatrixForcing;
  }

  lemma MatrixTaken(q: Formula, ext: map<int, set<int>>, forced: map<int, seq<Clause>>, more: map<int, seq<Clause>>, c: Clause, l: int)
    requires l in Restricted(c, q.deps.Keys) && Sees(ext, Restricted(c, q.deps.Keys), Abs(l)) && Abs(l) in ext
    requires more == AddBody(forced, l, Body(MatrixForcing(q, ext, c, l)))
    ensures TakenOver(q, ext, more, c) && Kept(forced, more) && Learnt(forced) <= Learnt(more)
  {
    hide Restricted, MatrixForcing, Learnt;
    var b := Body(MatrixForcing(q, ext, c, l));
    assert BodiesOf(more, l)[|BodiesOf(forced, l)|] == b;
    forall m, d | d in BodiesOf(forced, m) ensures d in BodiesOf(more, m) { BodyStays(forced, l, b, m, d); }
    LearntNext(forced, l, b);
  }

  lemma NothingToTake(q: Formula, ext: map<int, set<int>>, forced: map<int, seq<Clause>>, c: Clause)
    requires !exists l :: l in Restricted(c, q.deps.Keys) && Sees(ext, Restricted(c, q.deps.Keys), Abs(l))
    ensures TakenOver(q, ext, forced, c)
  {}

  /** What x sees sees less. */
  lemma SeenSeesLess(q: Formula, ext: map<int, set<int>>, x: int, y: int)
    requires Layered(q, ext) && ExtendedOk(q, ext) && x in q.deps && y in q.deps && y in ext[x]
    ensures |ext[y]| < |ext[x]|
  {
    assert ext[y] * q.universals == q.deps[y] <= q.deps[x] == ext[x] * q.universals;
    assert ext[y] * q.deps.Keys <= ext[x];
    forall v | v in ext[y] ensures v in ext[x] {
      assert v in Prefix(q);
      if v in q.universals { assert v in ext[y] * q.universals; } else { assert v in ext[y] * q.deps.Keys; }
    }
    assert Precedes(q, y, x) && !Precedes(q, y, y) && y !in ext[y];
    SubsetCard(ext[y], ext[x]);
  }

  /** Only a literal with the most extended dependencies can see all the others. */
  lemma SeesLargest(q: Formula, ext: map<int, set<int>>, es: seq<int>, literal: int)
    requires Layered(q, ext) && ExtendedOk(q, ext) && literal in es && Abs(literal) in ext && (exists l :: l in es && Sees(ext, es, Abs(l)))
    requires forall l :: l in es ==> Abs(l) in ext && |ext[Abs(l)]| <= |ext[Abs(literal)]|
    ensures Sees(ext, es, Abs(literal))
  {
    var l :| l in es && Sees(ext, es, Abs(l));
    if Abs(literal) != Abs(l) {
      assert Abs(literal) in ext[Abs(l)];
      SeenSeesLess(q, ext, Abs(l), Abs(literal));
    }
  }

  lemma ForcedVariable(q: Formula, ext: map<int, set<int>>, st: State, c: Conflict, l: int)
    requires Learnable(q, ext, st, c, l) && ext.Keys == q.deps.Keys
    ensures Abs(l) in q.deps && Abs(-l) == Abs(l)
  {}

  /** Both clauses of the arbiter have been added. */
  lemma NewlyLinked(before: map<int, seq<Clause>>, middle: map<int, seq<Clause>>, forced: map<int, seq<Clause>>,
                    proper: set<int>, arbs: map<int, Arbiter>, a: int, e: int, one: Clause, two: Clause)
    requires AllLinked(before, proper, arbs) && a in arbs && e == arbs[a].existential
    requires one == Negated(arbs[a].annotation) + [-a] && two == Negated(arbs[a].annotation) + [a]
    requires middle == AddBody(before, e, one) && forced == AddBody(middle, -e, two)
    ensures AllLinked(forced, proper + {a}, arbs) && Learnt(before) <= Learnt(forced)
  {
    hide Linked, AddBody, Learnt, Negated, BodiesOf, AllLinked;
    LinkedStays(before, e, one, proper, arbs);
    LinkedStays(middle, -e, two, proper, arbs);
    LearntNext(before, e, one);
    LearntNext(middle, -e, two);
    LastBody(before, e, one);
    LastBody(middle, -e, two);
    BodyStays(middle, -e, two, e, one);
    assert Linked(forced, a, arbs[a]) by { LinkedBy(forced, a, arbs[a], one, two); }
    OneMore(forced, proper, arbs, a);
  }

  lemma LinkedBy(forced: map<int, seq<Clause>>, a: int, b: Arbiter, one: Clause, two: Clause)
    requires one == Negated(b.annotation) + [-a] && two == Negated(b.annotation) + [a]
    requires one in BodiesOf(forced, b.existential) && two in BodiesOf(forced, -b.existential)
    ensures Linked(forced, a, b)
  {}

  lemma LastBody(forced: map<int, seq<Clause>>, l: int, body: Clause)
    ensures body in BodiesOf(AddBody(forced, l, body), l)
  {
    assert BodiesOf(AddBody(forced, l, body), l)[|BodiesOf(forced, l)|] == body;
  }

  lemma OneMore(forced: map<int, seq<Clause>>, proper: set<int>, arbs: map<int, Arbiter>, a: int)
    requires AllLinked(forced, proper, arbs) && a in arbs && Linked(forced, a, arbs[a])
    ensures AllLinked(forced, proper + {a}, arbs)
  {
    hide Linked;
  }

  lemma CanonicalHere(q: Formula, existentials: seq<int>, universals: seq<int>, w: Valuation, e: int)
    requires Lists(q, existentials, universals) && WellFormed(q) && e in q.deps
    ensures var r := Restricted(Assigned(w, universals), q.deps[e]);
            r == Canonical(universals, q.deps[e], Positives(r)) && Positives(r) <= q.universals
  {
    var ls := Assigned(w, universals);
    var r := Restricted(ls, q.deps[e]);
    CanonicalAnnotation(w, universals, q.deps[e]);
    forall l | l in Positives(r) ensures l in q.universals { RestrictedIn(ls, q.deps[e], l); }
  }

  ghost predicate AllIn(ls: seq<int>, more: seq<int>) {
    forall i :: 0 <= i < |ls| ==> ls[i] in more
  }

  lemma AllInNext(ls: seq<int>, l: int, more: seq<int>)
    requires AllIn(ls, more) && l in more
    ensures AllIn(ls + [l], more)
  {}

  lemma NoneIn(more: seq<int>)
    ensures AllIn([], more)
  {}

  lemma NegatedNext(bs: seq<int>, l: int)
    ensures Negated(bs + [l]) == Negated(bs) + [-l]
  {}

  lemma NegatedNone(clause: Clause)
    ensures Negated([]) == [] && clause + [] == clause
  {}

  lemma SameStand(s: Standing, t: Standing)
    requires SameArbiters(s, t)
    ensures s.arbs == t.arbs && s.proper == t.proper
  {}

  lemma StandSelf(s: Standing)
    ensures Advances(s, s)
  {}

  lemma ViewedArbiters(q: Formula, st: State, k: Candidate, c: Conflict, values: seq<int>)
    requires Sound(q, st) && IsCore(q, st, c) && k.values == map a | a in st.arbs :: a in values
    ensures k.values.Keys == st.arbs.Keys && OverVars(c.arbiters, k.values.Keys)
    ensures forall a :: a in k.values ==> a > 0 && k.values[a] == (a in values)
  {
    ArbitersFresh(q, st);
    hide Sound;
    assert k.values.Keys == st.arbs.Keys;
  }

  lemma WitnessComplete(q: Formula, k: Candidate, c: Conflict, w: Valuation, universals: seq<int>)
    requires Witnessed(q, k, c, w, universals)
    ensures c.complete == Assigned(w, universals)
  {}

  /** The literal of a tied arbiter is the value that the arbiter has: the candidate takes it over. */
  lemma BlamedTrue(q: Formula, st: State, k: Candidate, c: Conflict, w: Valuation, existentials: seq<int>, universals: seq<int>,
                   i: nat, literal: int, values: seq<int>)
    requires Sound(q, st) && Lists(q, existentials, universals) && Witnessed(q, k, c, w, universals) && i < |c.existentials|
    requires Blames(q, st.arbs, [c.existentials[i]], c.complete, [literal]) && Abs(literal) in st.proper
    requires AllLinked(k.forced, st.proper, st.arbs) && c.existentials[i] != 0
    requires k.values == (map a | a in st.arbs :: a in values) && Complete(values, st.arbs.Keys)
    ensures literal in values
  {
    var l, a := c.existentials[i], Abs(literal);
    var b := st.arbs[a];
    assert [c.existentials[i]][0] == l && [literal][0] == literal;
    ArbiterAnnotation(q, st, a);
    ArbitersFresh(q, st);
    hide Sound, Canonical, Negated;
    AnnotationTrue(w, universals, b.annotation, q.deps[b.existential]);
    assert Linked(k.forced, a, b) && l in c.existentials;
    LinkedValue(q, k, c, w, universals, a, b, l);
    assert w(a) == k.values[a];
  }

  lemma ArbiterAnnotation(q: Formula, st: State, a: int)
    requires Sound(q, st) && a in st.arbs
    ensures a > 0 && st.arbs[a].existential in q.deps && st.arbs[a].existential > 0
    ensures Complete(st.arbs[a].annotation, q.deps[st.arbs[a].existential]) && q.deps[st.arbs[a].existential] <= q.universals
  {}

  /** The new clause is false under the values at the conflict. */
  lemma BlamedFalsified(q: Formula, k: Candidate, c: Conflict, w: Valuation, universals: seq<int>, bs: seq<int>, values: seq<int>)
    requires Witnessed(q, k, c, w, universals) && AllIn(bs, values) && OverVars(c.arbiters, k.values.Keys)
    requires Complete(values, k.values.Keys) && forall a :: a in k.values ==> a > 0 && k.values[a] == (a in values)
    ensures Falsified(Negated(c.arbiters) + Negated(bs), LitsOf(values))
  {
    forall l | l in c.arbiters ensures l in LitsOf(values) {
      var i :| 0 <= i < |c.arbiters| && c.arbiters[i] == l;
      assert True(w, l) && Abs(l) in k.values && w(Abs(l)) == k.values[Abs(l)];
      assert Abs(l) in values || -Abs(l) in values;
    }
    forall l | l in bs ensures l in LitsOf(values) {
      var i :| 0 <= i < |bs| && bs[i] == l;
    }
    FalsifiedParts(c.arbiters, bs, LitsOf(values));
  }

  /** What a failure forces can be learned, and was not known. */
  lemma ForcingAdds(q: Formula, st: State, k: Candidate, c: Conflict, l: int, w: Valuation, universals: seq<int>)
    requires Witnessed(q, k, c, w, universals) && IsCore(q, st, c) && l in c.existentials && Sees(k.ext, c.existentials, Abs(l))
    requires k.ext.Keys == q.deps.Keys
    ensures Learnable(q, k.ext, st, c, l)
    ensures var more := AddBody(k.forced, -l, Body(ForcingClause(k.ext, -l, c.existentials, c.universals, c.arbiters)));
            Learnt(k.forced) <= Learnt(more) && |Learnt(k.forced)| < |Learnt(more)|
  {
    hide Unsatisfiable, ForcingClause, Witnessed, Learnt, AddBody, Complete, IsCore;
    CoreParts(q, st, c);
    NonZero(c.existentials, q.deps.Keys);
    NonZero(c.universals, q.universals);
    NonZero(c.arbiters, st.arbs.Keys);
    hide Shaped, OverVars;
    var b := Body(ForcingClause(k.ext, -l, c.existentials, c.universals, c.arbiters));
    ForcingIsNew(q, k, c, l, w, universals);
    LearntNext(k.forced, -l, b);
  }

  lemma BlamesOne(q: Formula, arbs: map<int, Arbiter>, l: int, complete: seq<int>, arbiter: int)
    requires WellFormed(q) && l != 0 && Abs(l) in q.deps && Complete(complete, q.universals) && arbiter in arbs && arbiter > 0
    requires arbs[arbiter] == Arbiter(Abs(l), Restricted(complete, q.deps[Abs(l)]))
    ensures Blames(q, arbs, [l], complete, [if l > 0 then arbiter else -arbiter])
  {
    AnnotationComplete(q, complete, Abs(l));
  }

  lemma CompleteNext(ls: seq<int>, range: set<int>, l: int)
    requires Complete(ls, range) && l != 0 && Abs(l) !in range && forall v :: v in range ==> v > 0
    ensures Complete(ls + [l], range + {Abs(l)})
  {}

  /** With an assignment of the arbiters and defaults, what has been learnt is a candidate. */
  lemma CurrentFits(q: Formula, st: State, k: Candidate, bs: seq<int>)
    requires Sound(q, st) && ExtendedOk(q, k.ext) && Layered(q, k.ext) && DefaultsFit(q, k.ext, k.defaults)
    requires ForcedFit(q, k.ext, st.arbs.Keys, k.forced) && Complete(bs, st.arbs.Keys)
    requires k.values == map a | a in st.arbs :: a in bs
    ensures Fits(q, k) && Reflects(bs, k.values) && k.values.Keys == st.arbs.Keys
  {
    hide ExtendedOk, Layered, DefaultsFit, ForcedFit;
    SoundRegistered(q, st);
    ArbitersFresh(q, st);
    hide Sound, Registered, Complete;
    assert k.values.Keys == st.arbs.Keys;
  }

  lemma ArbitersFresh(q: Formula, st: State)
    requires Sound(q, st)
    ensures WellFormed(q) && st.arbs.Keys !! Prefix(q) && forall a :: a in st.arbs.Keys ==> a > 0
  {
    forall a | a in st.arbs.Keys ensures a !in Prefix(q) { assert a in st.arbs; }
  }
}
