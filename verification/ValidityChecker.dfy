/** The objects that check a candidate and report what fails. */
module ValidityCheckers {
  import opened Basics
  import opened Dqbf
  import opened Arbiters
  import opened SkolemFamily
  import opened ValidityCheck

  /** The list assigns the arbiters as the map does. */
  ghost predicate Reflects(bs: seq<int>, values: map<int, bool>) {
    Complete(bs, values.Keys) && forall a :: a in values ==> a > 0 && values[a] == (a in bs)
  }

  lemma ReflectsAgrees(bs: seq<int>, values: map<int, bool>, w: Valuation)
    requires Reflects(bs, values) && AllTrue(w, bs)
    ensures AgreesWith(w, values)
  {
    AllTrueIn(w, bs);
    forall a | a in values ensures w(a) == values[a] {
      assert a in bs ==> True(w, a);
      assert -a in bs ==> True(w, -a);
    }
  }

  lemma AgreesReflects(bs: seq<int>, values: map<int, bool>, w: Valuation)
    requires Reflects(bs, values) && AgreesWith(w, values)
    ensures AllTrue(w, bs)
  {
    forall i | 0 <= i < |bs| ensures True(w, bs[i]) {
      var a := Abs(bs[i]);
      assert bs[i] in bs && a in values && -bs[i] !in bs;
      assert bs[i] == a || bs[i] == -a;
    }
  }

  /** Whatever is known besides the matrix and the forcing clauses, the literals of c cannot hold together. */
  ghost predicate Failing(q: Formula, k: Candidate, c: Conflict) {
    && forall extraction :: q.matrix <= extraction && Entailing(extraction, k.forced) ==> Unsatisfiable(extraction, c)
  }

  /** The conflict assigns all universals and all arbiters, and existentials without complementary literals. */
  ghost predicate Whole(q: Formula, values: map<int, bool>, c: Conflict) {
    && OverVars(c.existentials, q.deps.Keys) && OverVars(c.universals, q.universals) && OverVars(c.arbiters, values.Keys)
    && (forall l :: l in c.existentials ==> -l !in c.existentials)
    && Complete(c.complete, q.universals) && c.universals == c.complete
  }

  lemma AssignedFull(val: Valuation, variables: seq<int>, range: set<int>)
    requires forall v :: v in variables ==> v > 0 && v in range
    ensures OverVars(Assigned(val, variables), range)
    ensures forall l :: l in Assigned(val, variables) ==> -l !in Assigned(val, variables)
    ensures (forall v :: v in range ==> v in variables) ==> Complete(Assigned(val, variables), range)
  {
    var ls := Assigned(val, variables);
    forall l ensures l in ls <==> Abs(l) in variables && True(val, l) { AssignedIn(val, variables, l); }
    forall i | 0 <= i < |ls| ensures ls[i] != 0 && Abs(ls[i]) in range { assert ls[i] in ls; }
    forall l | l in ls ensures l != 0 && -l !in ls && Abs(l) in range {
      assert Abs(-l) == Abs(l);
    }
    hide Assigned;
    if forall v :: v in range ==> v in variables {
      forall v | v in range ensures v in ls || -v in ls { assert Abs(v) == v && Abs(-v) == v; }
    }
  }

  lemma {:induction false} RestrictedShorter(ls: seq<int>, range: set<int>)
    ensures |Restricted(ls, range)| <= |ls|
    ensures ls != [] && Abs(ls[0]) !in range ==> |Restricted(ls, range)| < |ls|
  {
    if ls != [] {
      RestrictedShorter(ls[..|ls| - 1], range);
    }
  }

  class ConsistencyChecker {
    const q: Formula
    const existentials: seq<int>
    const universals: seq<int>

    constructor (q: Formula, existentials: seq<int>, universals: seq<int>)
      ensures this.q == q && this.existentials == existentials && this.universals == universals
    {
      this.q, this.existentials, this.universals := q, existentials, universals;
    }

    /** A torn existential that sees no torn one, by going down from the first to what it sees. */
    method GetInconsistentExistentialVariable(k: Candidate, e: Rails) returns (x: int)
      requires Fits(q, k) && Lists(q, existentials, universals) && Clashes(q, k, e)
      ensures LeastTorn(q, k, e, x)
    {
      hide ForcedFit, DefaultsFit, ExtendedOk, Driven;
      var conflicted := [];
      for i := 0 to |existentials|
        invariant forall v :: v in conflicted <==> v in existentials[..i] && Torn(e, v)
      {
        assert existentials[..i + 1] == existentials[..i] + [existentials[i]];
        if e.pos(existentials[i]) && e.neg(existentials[i]) {
          conflicted := conflicted + [existentials[i]];
        }
      }
      assert existentials[..|existentials|] == existentials;
      ghost var some :| some in q.deps && Torn(e, some);
      assert some in conflicted;
      x := conflicted[0];
      conflicted := Descend(k, e, conflicted);
      while conflicted != []
        invariant x in q.deps && Torn(e, x)
        invariant forall v :: v in conflicted <==> v in q.deps && Torn(e, v) && v in k.ext[x]
        decreases |conflicted|
      {
        x := conflicted[0];
        conflicted := Descend(k, e, conflicted);
      }
    }

    /** What the first one sees. */
    method Descend(k: Candidate, ghost e: Rails, conflicted: seq<int>) returns (rest: seq<int>)
      requires Layered(q, k.ext) && conflicted != []
      requires conflicted[0] in k.ext && forall v :: v in conflicted ==> v in q.deps && Torn(e, v)
      requires forall v :: v in q.deps && Torn(e, v) && v in k.ext[conflicted[0]] ==> v in conflicted
      ensures |rest| < |conflicted|
      ensures forall v :: v in rest <==> v in q.deps && Torn(e, v) && v in k.ext[conflicted[0]]
    {
      var x := conflicted[0];
      assert x in conflicted && x > 0;
      rest := Restricted(conflicted, k.ext[x]);
      forall v ensures v in rest <==> v in conflicted && Abs(v) in k.ext[x] { RestrictedIn(conflicted, k.ext[x], v); }
      assert x !in k.ext[x] by { assert !Precedes(q, x, x); }
      RestrictedShorter(conflicted, k.ext[x]);
    }

    /** Whether forcing clauses and defaults can contradict each other; if so, under which assignment. */
    method CheckConsistency(k: Candidate, bs: seq<int>, query: ConsistencyQuery) returns (consistent: bool, ghost c: Conflict,
        es: seq<int>, us: seq<int>, ghost w: Valuation)
      requires Fits(q, k) && Lists(q, existentials, universals) && Reflects(bs, k.values) && AnswersConsistency(q, query)
      ensures consistent <==> forall e: Rails :: !Clashes(q, k, e)
      ensures !consistent ==> c == Conflict(es, us, bs, us) && Whole(q, k.values, c) && Failing(q, k, c)
      ensures !consistent ==> Witnessed(q, k, c, w, universals)
    {
      hide Fits, Clashes, Reflects, Witnessed;
      var answer := query(k);
      w := x => false;
      if answer.None? {
        return true, Conflict([], [], [], []), [], [], w;
      }
      var e := answer.value;
      var x := GetInconsistentExistentialVariable(k, e);
      es := Assigned(e.pos, Restricted(existentials, k.ext[x]));
      us := Assigned(e.rest, universals);
      c := Conflict(es, us, bs, us);
      consistent := false;
      ClashIsFull(q, k, e, existentials, universals, k.ext[x], bs);
      w := Plain(q, e);
      PlainAgrees(q, k, e);
      AgreesReflects(bs, k.values, w);
      ClashWitness(q, k, e, x, existentials, universals, bs);
      forall extraction | q.matrix <= extraction && Entailing(extraction, k.forced) ensures Unsatisfiable(extraction, c) {
        forall v: Valuation | AllTrue(v, bs) ensures AgreesWith(v, k.values) { ReflectsAgrees(bs, k.values, v); }
        ClashConflict(q, k, e, x, existentials, universals, extraction, bs);
      }
    }
  }

  lemma ClashIsFull(q: Formula, k: Candidate, e: Rails, existentials: seq<int>, universals: seq<int>, range: set<int>, bs: seq<int>)
    requires Lists(q, existentials, universals) && Reflects(bs, k.values)
    ensures var us := Assigned(e.rest, universals);
            Whole(q, k.values, Conflict(Assigned(e.pos, Restricted(existentials, range)), us, bs, us))
  {
    var es := Restricted(existentials, range);
    forall v | v in es ensures v in existentials { RestrictedIn(existentials, range, v); }
    hide Restricted, Assigned;
    AssignedFull(e.pos, es, q.deps.Keys);
    AssignedFull(e.rest, universals, q.universals);
    forall i | 0 <= i < |bs| ensures bs[i] != 0 && Abs(bs[i]) in k.values.Keys { assert bs[i] in bs; }
  }

  class SimpleValidityChecker {
    const q: Formula
    const existentials: seq<int>
    const universals: seq<int>
    const consistencyChecker: ConsistencyChecker
    var failingExistentials: seq<int>
    var failingUniversals: seq<int>
    var failingArbiters: seq<int>
    var fullUniversals: seq<int>

    ghost function Failure(): Conflict
      reads this
    {
      Conflict(failingExistentials, failingUniversals, failingArbiters, fullUniversals)
    }

    ghost predicate Valid() {
      && Lists(q, existentials, universals)
      && consistencyChecker.q == q && consistencyChecker.existentials == existentials && consistencyChecker.universals == universals
    }

    constructor (q: Formula, existentials: seq<int>, universals: seq<int>)
      requires Lists(q, existentials, universals)
      ensures Valid() && this.q == q && this.existentials == existentials && this.universals == universals
    {
      this.q, this.existentials, this.universals := q, existentials, universals;
      consistencyChecker := new ConsistencyChecker(q, existentials, universals);
      failingExistentials, failingUniversals, failingArbiters, fullUniversals := [], [], [], [];
    }

    /** Whether the candidate is a model; if not, an assignment under which it fails. */
    method CheckArbiterAssignment(k: Candidate, bs: seq<int>, validity: ValidityQuery, consistency: ConsistencyQuery)
        returns (passed: bool, ghost w: Valuation)
      requires Valid() && Fits(q, k) && Reflects(bs, k.values)
      requires AnswersValidity(q, validity) && AnswersConsistency(q, consistency)
      modifies `failingExistentials, `failingUniversals, `failingArbiters, `fullUniversals
      ensures Valid()
      ensures passed <==> (forall val: Valuation :: !Fails(q, k, val)) && forall e: Rails :: !Clashes(q, k, e)
      ensures passed ==> Layered(q, k.ext) && Winning(q, RuleFamily(q, k))
      ensures !passed ==> Whole(q, k.values, Failure()) && Failing(q, k, Failure())
      ensures !passed ==> Witnessed(q, k, Failure(), w, universals)
    {
      hide Fits, Fails, Clashes, Whole, Failing, Reflects, Winning, Lists, Witnessed;
      LayeredPart(q, k);
      var answer := validity(k);
      if answer.Some? {
        SetFailingAssignments(k, answer.value, bs);
        return false, answer.value;
      }
      ghost var c: Conflict;
      passed, c, failingExistentials, failingUniversals, w := consistencyChecker.CheckConsistency(k, bs, consistency);
      failingArbiters, fullUniversals := bs, failingUniversals;
      if passed {
        PassedWins(q, k);
      }
    }

    method SetFailingAssignments(k: Candidate, val: Valuation, bs: seq<int>)
      requires Valid() && Fits(q, k) && Reflects(bs, k.values) && Fails(q, k, val)
      modifies `failingExistentials, `failingUniversals, `failingArbiters, `fullUniversals
      ensures Whole(q, k.values, Failure()) && Failing(q, k, Failure())
      ensures Witnessed(q, k, Failure(), val, universals)
    {
      hide Witnessed;
      AgreesReflects(bs, k.values, val);
      ValidityWitness(q, k, val, existentials, universals, bs);
      fullUniversals := Assigned(val, universals);
      failingExistentials := Assigned(val, existentials);
      failingUniversals, failingArbiters := fullUniversals, bs;
      FailureIsFull(q, k, val, existentials, universals, bs);
      hide Assigned, Follows;
      forall extraction | q.matrix <= extraction ensures Unsatisfiable(extraction, Failure()) {
        WholeConflict(q, val, existentials, universals, extraction, bs);
      }
    }

    /** A core of the failure, from the solver that holds the matrix and what has been learnt. */
    method GetConflict(extraction: seq<Clause>, core: CoreFinder, ghost st: State, ghost k: Candidate, ghost w: Valuation)
        returns (c: Conflict)
      requires Whole(q, k.values, Failure()) && Failing(q, k, Failure()) && FindsCores(core)
      requires q.matrix <= extraction && Entailing(extraction, k.forced)
      requires st.extraction == extraction && st.arbs.Keys == k.values.Keys
      requires Witnessed(q, k, Failure(), w, universals)
      ensures IsCore(q, st, c) && Witnessed(q, k, c, w, universals)
    {
      hide Entailing, Unsatisfiable, Witnessed;
      var answer := core(extraction, Conflict(failingExistentials, failingUniversals, failingArbiters, fullUniversals));
      c := answer.value;
      WithinShaped(q, st.arbs, k.values, Failure(), c);
      WitnessWithin(q, k, Failure(), c, w, universals);
    }
  }

  lemma FailureIsFull(q: Formula, k: Candidate, val: Valuation, existentials: seq<int>, universals: seq<int>, bs: seq<int>)
    requires Lists(q, existentials, universals) && Reflects(bs, k.values)
    ensures var us := Assigned(val, universals); Whole(q, k.values, Conflict(Assigned(val, existentials), us, bs, us))
  {
    hide Assigned;
    AssignedFull(val, existentials, q.deps.Keys);
    AssignedFull(val, universals, q.universals);
    forall i | 0 <= i < |bs| ensures bs[i] != 0 && Abs(bs[i]) in k.values.Keys { assert bs[i] in bs; }
  }

  lemma OverPart(ls: seq<int>, more: seq<int>, range: set<int>)
    requires OverVars(more, range) && forall l :: l in ls ==> l in more
    ensures OverVars(ls, range)
  {
    forall i | 0 <= i < |ls| ensures ls[i] != 0 && Abs(ls[i]) in range {
      assert ls[i] in ls;
      var j :| 0 <= j < |more| && more[j] == ls[i];
    }
  }

  lemma WithinShaped(q: Formula, arbs: map<int, Arbiter>, values: map<int, bool>, c: Conflict, k: Conflict)
    requires Whole(q, values, c) && Within(k, c) && arbs.Keys == values.Keys
    ensures Shaped(q, arbs, k) && Complete(k.complete, q.universals) && forall l :: l in k.universals ==> l in k.complete
  {
    hide OverVars;
    OverPart(k.existentials, c.existentials, q.deps.Keys);
    OverPart(k.universals, c.universals, q.universals);
    OverPart(k.arbiters, c.arbiters, arbs.Keys);
  }
}
