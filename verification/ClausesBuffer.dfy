/** The buffer class: each call is one step of the clause exchange. */
module ClausesBuffers {
  import opened Basics
  import opened ClauseExchange
  import opened ClauseRing

  class ClausesBuffer {
    const elems: array<nat>
    const maxsize: nat
    const nbThreads: nat
    var first: nat
    var last: nat
    var queuesize: nat
    var lastOfThread: seq<nat>
    ghost var buffer: Buffer

    ghost function Snap(): Ring
      reads this, elems
    {
      Ring(elems[..], first, last, queuesize, lastOfThread)
    }

    ghost predicate Stored()
      reads this, elems
    {
      elems.Length == maxsize && Threads(buffer) == nbThreads && Stores(Snap(), buffer)
    }

    ghost predicate Valid()
      reads this, elems
    {
      Stored() && Settled(buffer)
    }

    /** `last` stands before `first`; without any place it wraps around as unsigned numbers do. */
    constructor (threads: nat, size: nat)
      ensures fresh(elems) && elems.Length == size && nbThreads == threads && maxsize == size && buffer == Empty(threads)
      ensures first == queuesize == 0 && last == (if size == 0 then 0xFFFF_FFFF else size - 1)
      ensures |lastOfThread| == threads && forall t :: 0 <= t < threads ==> lastOfThread[t] == last
      ensures threads >= 2 && size > 0 ==> Valid()
    {
      elems, maxsize, nbThreads := new nat[size], size, threads;
      first, last, queuesize := 0, if size == 0 then 0xFFFF_FFFF else size - 1, 0;
      lastOfThread := seq(threads, _ => if size == 0 then 0xFFFF_FFFF else size - 1);
      buffer := Empty(threads);
      new;
      if threads >= 2 && size > 0 {
        EmptyStores(Snap(), threads);
      }
    }

    function NextIndex(i: nat): nat {
      if i + 1 == maxsize then 0 else i + 1
    }

    function AddIndex(i: nat, a: nat): nat {
      if i + a >= maxsize then i + a - maxsize else i + a
    }

    method NoCheckPush(x: nat)
      requires first < elems.Length == maxsize
      modifies elems, `first
      ensures Snap() == PushWord(old(Snap()), x)
    {
      elems[first] := x;
      first := NextIndex(first);
    }

    method NoCheckPop(index: nat) returns (next: nat, x: nat)
      requires index < elems.Length == maxsize
      ensures next == At(maxsize, index, 1) && x == elems[next]
    {
      next := NextIndex(index);
      x := elems[next];
    }

    /** Push a clause if there is room for it. */
    method PushClause(threadId: nat, c: seq<nat>) returns (accepted: bool)
      requires Valid() && threadId < nbThreads
      modifies this, elems
      ensures Valid()
      ensures accepted <==> old(queuesize) + |c| + HEADER_SIZE < maxsize
      ensures Step(old(buffer), Pushed(threadId, c, accepted), buffer)
    {
      hide Stores, Settled, Shape, Pushing, PushWord;
      StoresFacts(Snap(), buffer);
      SettledFacts(buffer);
      if queuesize + |c| + HEADER_SIZE >= maxsize {
        return false;
      }
      ghost var r := Snap();
      PushStart(r);
      PushMore(r, Snap(), [], |c|);
      NoCheckPush(|c|);
      PushMore(r, Snap(), [] + [|c|], nbThreads - 1);
      NoCheckPush(nbThreads - 1);
      PushMore(r, Snap(), [] + [|c|] + [nbThreads - 1], threadId);
      NoCheckPush(threadId);
      ghost var header := [|c|, nbThreads - 1, threadId];
      assert [] + [|c|] + [nbThreads - 1] + [threadId] == header == header + c[..0];
      for i := 0 to |c|
        modifies elems, this`first
        invariant Pushing(r, Snap(), header + c[..i])
      {
        assert header + c[..i] + [c[i]] == header + c[..i + 1];
        PushMore(r, Snap(), header + c[..i], c[i]);
        NoCheckPush(c[i]);
      }
      assert c[..|c|] == c;
      PushStores(r, Snap(), buffer, threadId, c);
      PushSettled(buffer, threadId, c);
      queuesize := queuesize + |c| + HEADER_SIZE;
      buffer := Push(buffer, threadId, c);
      accepted := true;
    }

    /** Remove the first clause; cursors before it move along. */
    method RemoveOne()
      requires Stored() && buffer.queue != []
      modifies this`last, this`queuesize, this`lastOfThread, this`buffer
      ensures Stored() && buffer == Drop(old(buffer))
    {
      hide Stores;
      ghost var r := Snap();
      StoresFacts(r, buffer);
      RecordAt(r, buffer, 0);
      DropStores(r, buffer);
      var size := elems[NextIndex(last)];
      var nextlast := AddIndex(last, size + HEADER_SIZE);
      for i := 0 to nbThreads
        modifies this`lastOfThread
        invariant |lastOfThread| == nbThreads
        invariant forall t :: 0 <= t < nbThreads ==>
          lastOfThread[t] == if t < i && r.lastOf[t] == last then nextlast else r.lastOf[t]
      {
        if lastOfThread[i] == last {
          lastOfThread := lastOfThread[i := nextlast];
        }
      }
      for i := 0 to size + HEADER_SIZE
        modifies this`last, this`queuesize
        invariant queuesize == r.size - i && last == At(maxsize, r.last, i)
      {
        last := NextIndex(last);
        assert queuesize > 0;
        queuesize := queuesize - 1;
      }
      assert last == nextlast;
      assert Snap() == DropFront(r, size + HEADER_SIZE);
      buffer := Drop(buffer);
    }

    /** Remove the first clause, and those behind it that everybody has read. */
    method RemoveLastClause()
      requires Stored() && buffer.queue != []
      modifies this`last, this`queuesize, this`lastOfThread, this`buffer
      ensures Stored() && buffer == Purge(Drop(old(buffer)))
    {
      hide Stores;
      RemoveOne();
      FrontCounter(Snap(), buffer);
      while queuesize > 0 && elems[AddIndex(last, 2)] == 0
        invariant Stored() && Purge(buffer) == Purge(Drop(old(buffer))) && AtFront(Snap(), buffer)
        decreases |buffer.queue|
      {
        RemoveOne();
        FrontCounter(Snap(), buffer);
      }
    }

    /** Move on over clauses of the thread itself. */
    method SkipOwn(threadId: nat, start: nat) returns (thislast: nat)
      requires Stored() && threadId < nbThreads && buffer.cursor[threadId] <= |buffer.queue|
      requires start == Place(Snap(), buffer, buffer.cursor[threadId])
      ensures thislast == Place(Snap(), buffer, NextForeign(buffer.queue, threadId, buffer.cursor[threadId]))
    {
      hide Stores, Place;
      thislast := start;
      ghost var k := buffer.cursor[threadId];
      PlaceKnown(Snap(), buffer, k);
      OriginAt(Snap(), buffer, k);
      while NextIndex(thislast) != first && elems[AddIndex(thislast, 3)] == threadId
        invariant k <= |buffer.queue| && thislast == Place(Snap(), buffer, k)
        invariant NextForeign(buffer.queue, threadId, k) == NextForeign(buffer.queue, threadId, buffer.cursor[threadId])
        invariant NextIndex(thislast) == first <==> k == |buffer.queue|
        invariant OriginIs(Snap(), thislast, buffer.queue, k)
        decreases |buffer.queue| - k
      {
        RecordAt(Snap(), buffer, k);
        thislast := AddIndex(thislast, elems[NextIndex(thislast)] + HEADER_SIZE);
        k := k + 1;
        PlaceKnown(Snap(), buffer, k);
        OriginAt(Snap(), buffer, k);
      }
    }

    /** Count down and read the clause behind place start; `next` is the place behind the clause. */
    method ReadOut(start: nat, ghost k: nat) returns (next: nat, removeAfter: bool, origin: nat, lits: seq<nat>)
      requires Stored() && k < |buffer.queue| && buffer.queue[k].nseen > 0 && start == Place(Snap(), buffer, k)
      modifies elems, this`buffer
      ensures Stored() && buffer == Counted1(old(buffer), k)
      ensures next == Place(Snap(), buffer, k + 1) && Message(origin, lits) == old(buffer.queue[k].msg)
      ensures removeAfter <==> old(buffer.queue[k].nseen) == 1
    {
      hide Stores, Place;
      ghost var b := buffer;
      RecordAt(Snap(), b, k);
      CountDown(Snap(), b, k, b.queue[k].nseen - 1);
      SamePlaces(b, k);
      var csize;
      next, csize := NoCheckPop(start);
      elems[AddIndex(next, 1)] := elems[AddIndex(next, 1)] - 1;
      buffer := Counted1(b, k);
      removeAfter := elems[AddIndex(next, 1)] == 0;
      next, origin, lits := ReadLiterals(start, next, csize, k);
    }

    /** The origin and the literals of a clause, from the place of its size on. */
    method ReadLiterals(ghost start: nat, index: nat, csize: nat, ghost k: nat) returns (next: nat, origin: nat, lits: seq<nat>)
      requires Stored() && k < |buffer.queue| && start == Place(Snap(), buffer, k)
      requires index == At(maxsize, start, 1) && csize == |buffer.queue[k].msg.lits|
      ensures next == Place(Snap(), buffer, k + 1) && Message(origin, lits) == buffer.queue[k].msg
    {
      hide Stores, Place;
      StoresFacts(Snap(), buffer);
      RecordAt(Snap(), buffer, k);
      next := NextIndex(index);
      next, origin := NoCheckPop(next);
      lits := [];
      for i := 0 to csize
        invariant next == At(maxsize, start, HEADER_SIZE + i) && lits == buffer.queue[k].msg.lits[..i]
      {
        var x;
        next, x := NoCheckPop(next);
        assert x == buffer.queue[k].msg.lits[i];
        lits := lits + [x];
      }
    }

    /** Hand out the clause behind place start and move the thread's cursor behind it. */
    method Take(threadId: nat, start: nat) returns (threadOrigin: nat, resultClause: seq<nat>)
      requires Valid() && threadId < nbThreads
      requires NextForeign(buffer.queue, threadId, buffer.cursor[threadId]) < |buffer.queue|
      requires start == Place(Snap(), buffer, NextForeign(buffer.queue, threadId, buffer.cursor[threadId]))
      modifies this, elems
      ensures Valid() && Step(old(buffer), Asked(threadId, Some(Message(threadOrigin, resultClause))), buffer)
    {
      hide Stores, Place, Settled, NextForeign, Purge, Counted;
      ghost var b := buffer;
      ghost var k := NextForeign(b.queue, threadId, b.cursor[threadId]);
      PlaceKnown(Snap(), b, k);
      GetSettled(b, threadId);
      ReadIsGet(b, threadId);
      var thislast, removeAfter;
      thislast, removeAfter, threadOrigin, resultClause := ReadOut(start, k);
      k := k + 1;
      if last == start && removeAfter {
        LastReader(b, threadId);
        RemoveLastClause();
        thislast := last;
        k := 0;
        FrontPlace(Snap(), buffer);
        assert buffer.cursor[threadId := 0] == buffer.cursor;
      }
      StoresFacts(Snap(), buffer);
      MoveCursor(Snap(), buffer, threadId, k);
      lastOfThread := lastOfThread[threadId := thislast];
      buffer := buffer.(cursor := buffer.cursor[threadId := k]);
    }

    /** The next clause of another thread, if there is one. */
    method GetClause(threadId: nat) returns (found: bool, threadOrigin: nat, resultClause: seq<nat>)
      requires Valid() && threadId < nbThreads
      modifies this, elems
      ensures Valid()
      ensures Step(old(buffer), Asked(threadId, if found then Some(Message(threadOrigin, resultClause)) else None), buffer)
    {
      hide Stores, Place, Settled, NextForeign, Purge, Stands;
      found, threadOrigin, resultClause := false, 0, [];
      ghost var b := buffer;
      GetSettled(b, threadId);
      StandsAt(Snap(), b, threadId);
      var thislast := lastOfThread[threadId];
      PlaceKnown(Snap(), b, b.cursor[threadId]);
      if NextIndex(thislast) == first {
        return;
      }
      NotOvertaken(Snap(), b, b.cursor[threadId]);
      if (thislast < last && last < first) || (first < thislast && thislast < last) || (last < first && first < thislast) {
        thislast := last;
      }
      thislast := SkipOwn(threadId, thislast);
      ghost var k := NextForeign(b.queue, threadId, b.cursor[threadId]);
      PlaceKnown(Snap(), b, k);
      if NextIndex(thislast) == first {
        MoveCursor(Snap(), b, threadId, k);
        lastOfThread := lastOfThread[threadId := thislast];
        buffer := b.(cursor := b.cursor[threadId := k]);
        return;
      }
      found := true;
      threadOrigin, resultClause := Take(threadId, thislast);
    }
  }
}
