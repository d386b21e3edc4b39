/** The container that keeps track of what each variable may use. */
module DependencyContainers {
  import opened Basics
  import opened DependencyTables

  class DependencyContainer {
    var universals: set<int>
    var stored: map<int, seq<int>>
    var toCompute: set<int>
    var supports: map<int, seq<int>>
    var pending: map<int, seq<int>>

    ghost function Snap(): Table
      reads this
    {
      Table(universals, stored, toCompute, supports, pending)
    }

    /** Walk over the stored and the pending list at once. */
    method IncludedInDependencies(v: int, support: seq<int>) returns (included: bool)
      requires WellFormed(Snap()) && v in stored && Increasing(support)
      ensures included <==> Elements(support) <= Uses(Snap(), v)
    {
      NotComputed(Snap(), v);
      var deps := stored[v];
      if v !in pending {
        IncludesMeans(deps, support);
        assert Pending(Snap(), v) == {};
        included := Includes(deps, support);
        return;
      }
      var more := pending[v];
      var i, j, k := 0, 0, 0;
      while k < |support|
        invariant 0 <= i <= |deps| && 0 <= j <= |more| && 0 <= k <= |support|
        invariant forall x :: 0 <= x < k ==> support[x] in deps || support[x] in more
        invariant k < |support| ==> forall x :: 0 <= x < i ==> deps[x] < support[k]
        invariant k < |support| ==> forall x :: 0 <= x < j ==> more[x] < support[k]
        decreases |support| - k + |deps| - i + |more| - j
      {
        if i == |deps| {
          included := Includes(more[j..], support[k..]);
          RestIncluded(deps, more, support, i, j, k);
          return;
        }
        if j == |more| {
          included := Includes(deps[i..], support[k..]);
          RestIncluded(more, deps, support, j, i, k);
          return;
        }
        if support[k] < deps[i] && support[k] < more[j] {
          Skipped(deps, support[k], i);
          Skipped(more, support[k], j);
          assert support[k] in Elements(support);
          return false;
        }
        if support[k] == deps[i] || support[k] == more[j] {
          k := k + 1;
        }
        if k < |support| && deps[i] < support[k] {
          i := i + 1;
        }
        if k < |support| && more[j] < support[k] {
          j := j + 1;
        }
      }
      included := true;
    }

    /** Put further variables into the list of v. */
    method UpdateVectorMap(v: int, more: seq<int>)
      requires v in stored
      modifies `stored
      ensures stored == old(stored)[v := Merge(old(stored)[v], more)]
    {
      var news := MergeLists(stored[v], more);
      stored := stored[v := news];
    }

    /** Merge all pending additions; `order` is the order in which the hash table is walked. */
    method PerformUpdate(order: seq<int>)
      requires WellFormed(Snap()) && Elements(order) == pending.Keys
      requires Distinct(order)
      modifies `stored, `pending
      ensures Snap() == Performed(old(Snap()))
    {
      hide Merge, Increasing, Uses, WellFormed, MergedOn, Elements, Performed;
      ghost var t := Snap();
      MergeReady(t, order);
      for i := 0 to |order|
        invariant stored == MergedOn(t, order[..i])
        modifies `stored
      {
        MergedNext(t, order, i);
        UpdateVectorMap(order[i], pending[order[i]]);
      }
      assert order[..|order|] == order;
      pending := map[];
      MergedAll(t, order);
    }

    /** x has been defined from its support; returns the variables that may use it from now on. */
    method ScheduleUpdate(x: int, support: seq<int>, undefined: seq<int>, before: set<int>) returns (updated: set<int>)
      requires WellFormed(Snap()) && Schedulable(Snap(), x, support, Elements(undefined)) && Increasing(undefined)
      modifies `toCompute, `supports, `pending, `stored
      ensures Snap() == Scheduled(old(Snap()), x, support, Elements(undefined)) && WellFormed(Snap())
      ensures updated == before + Touched(old(Snap()), support, Elements(undefined))
    {
      hide Uses, WellFormed, Schedulable;
      ghost var t := Snap();
      SchedulableFacts(t, x, support, Elements(undefined));
      Enter(x, support);
      updated := before;
      for i := 0 to |undefined|
        invariant updated == before + Touched(t, support, Elements(undefined[..i]))
        invariant Snap() == Scheduled(t, x, support, Elements(undefined[..i]))
        modifies `pending
      {
        var v := undefined[i];
        Midway(t, x, support, undefined, i);
        var included := IncludedInDependencies(v, support);
        if included {
          updated := updated + {v};
          pending := pending[v := (if v in pending then pending[v] else []) + [x]];
        }
        NextScheduled(t, x, support, undefined, i);
      }
      assert undefined[..|undefined|] == undefined;
      ScheduledWellFormed(t, x, support, Elements(undefined));
    }

    method Enter(x: int, support: seq<int>)
      requires x in stored
      modifies `toCompute, `supports, `pending, `stored
      ensures Snap() == Scheduled(old(Snap()), x, support, {})
    {
      toCompute := toCompute + {x};
      supports := supports[x := support];
      pending := pending - {x};
      stored := stored - {x};
    }

    /** The dependencies of a defined variable, through the supports of other defined variables. */
    method ComputeDynamicDependencies(v: int, ghost rank: int -> nat) returns (result: set<int>)
      requires WellFormed(Snap()) && Ranked(Snap(), rank) && v in toCompute
      ensures result == Dynamic(Snap(), rank, v)
      decreases rank(v)
    {
      var support := supports[v];
      result := Elements(support);
      for i := 0 to |support|
        invariant Elements(support[..i]) <= Elements(support)
        invariant result == Elements(support) + DynamicOf(Snap(), rank, v, support[..i])
      {
        var y := support[i];
        PrefixMember(Snap(), rank, v, i);
        if y in universals {
          result := result + {y};
        } else if y in toCompute {
          var deps := ComputeDynamicDependencies(y, rank);
          result := result + deps;
        } else {
          var deps := stored[y];
          result := result + Elements(deps);
        }
      }
      assert support[..|support|] == support;
    }
  }

  lemma MergeStep(a: seq<int>, b: seq<int>, i: nat, j: nat, news: seq<int>)
    requires i < |a| && j < |b|
    ensures news + Merge(a[i..], b[j..]) ==
            if a[i] == b[j] then (news + [a[i]]) + Merge(a[i + 1..], b[j + 1..])
            else if a[i] < b[j] then (news + [a[i]]) + Merge(a[i + 1..], b[j..])
            else (news + [b[j]]) + Merge(a[i..], b[j + 1..])
  {
    assert a[i..][1..] == a[i + 1..] && b[j..][1..] == b[j + 1..];
  }

  lemma SchedulableFacts(t: Table, x: int, support: seq<int>, undefined: set<int>)
    requires Schedulable(t, x, support, undefined)
    ensures x in t.stored && x !in undefined && Increasing(support)
  {}

  lemma MergeEnd(a: seq<int>, b: seq<int>)
    requires a == [] || b == []
    ensures Merge(a, b) == a + b
  {}

  method MergeLists(deps: seq<int>, more: seq<int>) returns (news: seq<int>)
    ensures news == Merge(deps, more)
  {
    hide Merge;
    news := [];
    var i, j := 0, 0;
    while i < |deps| && j < |more|
      invariant 0 <= i <= |deps| && 0 <= j <= |more|
      invariant news + Merge(deps[i..], more[j..]) == Merge(deps, more)
    {
      MergeStep(deps, more, i, j, news);
      if deps[i] == more[j] {
        news := news + [deps[i]];
        i := i + 1;
        j := j + 1;
      } else if deps[i] < more[j] {
        news := news + [deps[i]];
        i := i + 1;
      } else {
        news := news + [more[j]];
        j := j + 1;
      }
    }
    MergeEnd(deps[i..], more[j..]);
    news := news + deps[i..];
    news := news + more[j..];
  }

  /** The lists after merging for some of the variables. */
  ghost function MergedOn(t: Table, done: seq<int>): map<int, seq<int>> {
    map v | v in t.stored :: if v in done && v in t.pending then Merge(t.stored[v], t.pending[v]) else t.stored[v]
  }

  lemma MergeReady(t: Table, order: seq<int>)
    requires WellFormed(t) && Elements(order) == t.pending.Keys
    ensures t.pending.Keys <= t.stored.Keys && MergedOn(t, order[..0]) == t.stored
    ensures forall i :: 0 <= i < |order| ==> order[i] in t.stored && order[i] in t.pending
  {
    forall i | 0 <= i < |order| ensures order[i] in t.stored && order[i] in t.pending {
      assert order[i] in Elements(order);
    }
  }

  lemma MergedNext(t: Table, order: seq<int>, i: nat)
    requires i < |order| && order[i] in t.stored && order[i] in t.pending && Distinct(order)
    ensures var v, m := order[i], MergedOn(t, order[..i]);
            v in m && MergedOn(t, order[..i + 1]) == m[v := Merge(m[v], t.pending[v])]
  {
    hide Merge;
    assert order[i] !in order[..i];
    assert forall v :: v in order[..i + 1] <==> v in order[..i] || v == order[i];
  }

  lemma MergedAll(t: Table, order: seq<int>)
    requires Elements(order) == t.pending.Keys && t.pending.Keys <= t.stored.Keys
    ensures Performed(t) == t.(stored := MergedOn(t, order), pending := map[])
  {
    hide Merge;
    assert forall v :: v in t.pending ==> v in Elements(order);
    assert MergedOn(t, order) == Performed(t).stored;
  }

  lemma NextElements(s: seq<int>, i: nat)
    requires i < |s|
    ensures Elements(s[..i + 1]) == Elements(s[..i]) + {s[i]}
  {
    assert s[..i + 1] == s[..i] + [s[i]];
    ElementsAppended(s[..i], s[i]);
  }

  /** Part way through, the table is as if only the variables looked at so far were undefined. */
  lemma Midway(t: Table, x: int, support: seq<int>, undefined: seq<int>, i: nat)
    requires WellFormed(t) && Schedulable(t, x, support, Elements(undefined)) && Increasing(undefined) && i < |undefined|
    ensures var s := Scheduled(t, x, support, Elements(undefined[..i]));
            && WellFormed(s) && undefined[i] in s.stored && Increasing(support)
            && Uses(s, undefined[i]) == Uses(t, undefined[i])
  {
    assert Elements(undefined[..i]) <= Elements(undefined) && undefined[i] in Elements(undefined);
    assert undefined[i] !in undefined[..i];
    ScheduledWellFormed(t, x, support, Elements(undefined[..i]));
    hide WellFormed, Scheduled, Uses;
    UsesScheduled(t, x, support, Elements(undefined[..i]), undefined[i]);
  }

  /** What one more undefined variable adds. */
  lemma NextScheduled(t: Table, x: int, support: seq<int>, undefined: seq<int>, i: nat)
    requires Increasing(undefined) && i < |undefined| && x !in Elements(undefined)
    ensures var v, e, f := undefined[i], Elements(undefined[..i]), Elements(undefined[..i + 1]);
            var s := Scheduled(t, x, support, e);
            if Elements(support) <= Uses(t, v) then
              Touched(t, support, f) == Touched(t, support, e) + {v}
              && Scheduled(t, x, support, f)
                 == s.(pending := s.pending[v := (if v in s.pending then s.pending[v] else []) + [x]])
            else Touched(t, support, f) == Touched(t, support, e) && Scheduled(t, x, support, f) == s
  {
    hide Uses;
    var v, e, f := undefined[i], Elements(undefined[..i]), Elements(undefined[..i + 1]);
    NextElements(undefined, i);
    assert v !in e && v in Elements(undefined);
    var d: set<int> := if Elements(support) <= Uses(t, v) then {v} else {};
    assert Touched(t, support, f) == Touched(t, support, e) + d;
    hide Touched, Elements;
    PendingNext(t, x, support, e, f, v);
  }

  lemma PendingNext(t: Table, x: int, support: seq<int>, e: set<int>, f: set<int>, v: int)
    requires v !in Touched(t, support, e) && v != x
    requires Touched(t, support, f) == Touched(t, support, e) || Touched(t, support, f) == Touched(t, support, e) + {v}
    ensures var s := Scheduled(t, x, support, e);
            Scheduled(t, x, support, f) ==
              if v in Touched(t, support, f) then
                s.(pending := s.pending[v := (if v in s.pending then s.pending[v] else []) + [x]])
              else s
  {
    hide Touched, Elements;
  }

  lemma PrefixMember(t: Table, rank: int -> nat, v: int, i: nat)
    requires WellFormed(t) && Ranked(t, rank) && v in t.toCompute && i < |t.supports[v]|
    ensures var s := t.supports[v];
            && Elements(s[..i]) <= Elements(s) && Elements(s[..i + 1]) <= Elements(s)
            && DynamicOf(t, rank, v, s[..i + 1]) == DynamicOf(t, rank, v, s[..i]) + Member(t, rank, s[i])
            && rank(s[i]) < rank(v) && (s[i] in t.universals || s[i] in t.toCompute || s[i] in t.stored)
  {
    var s := t.supports[v];
    hide Member;
    assert s[..i + 1][..i] == s[..i] && s[..i + 1][i] == s[i];
    assert s[i] in Uses(t, v);
  }

  lemma NotComputed(t: Table, v: int)
    requires WellFormed(t) && v in t.stored
    ensures v !in t.toCompute && Increasing(t.stored[v]) && (v in t.pending ==> Increasing(t.pending[v]))
    ensures Uses(t, v) == Elements(t.stored[v]) + Pending(t, v)
  {}

  /** x is before entry i of an increasing list and after all earlier ones. */
  lemma Skipped(s: seq<int>, x: int, i: nat)
    requires Increasing(s) && i < |s| && x < s[i] && forall k :: 0 <= k < i ==> s[k] < x
    ensures x !in s
  {}

  /** One list is used up: the rest of the support has to be in the rest of the other. */
  lemma RestIncluded(done: seq<int>, more: seq<int>, support: seq<int>, i: nat, j: nat, k: nat)
    requires Increasing(done) && Increasing(more) && Increasing(support) && i == |done| && j <= |more| && k < |support|
    requires forall x :: 0 <= x < k ==> support[x] in done || support[x] in more
    requires forall x :: 0 <= x < i ==> done[x] < support[k]
    requires forall x :: 0 <= x < j ==> more[x] < support[k]
    ensures Includes(more[j..], support[k..]) <==> Elements(support) <= Elements(done) + Elements(more)
  {
    if Includes(more[j..], support[k..]) {
      forall x | x in support ensures x in done || x in more {
        var n :| 0 <= n < |support| && support[n] == x;
        if n >= k { assert x in support[k..]; }
      }
    }
    if Elements(support) <= Elements(done) + Elements(more) {
      forall x | x in support[k..] ensures x in more[j..] {
        var n :| 0 <= n < |support[k..]| && support[k..][n] == x;
        assert x == support[k + n] && support[k] <= x && x in Elements(support);
        assert x !in done;
        var m :| 0 <= m < |more| && more[m] == x;
        assert more[j..][m - j] == x;
      }
    }
  }
}
