/** The clause exchange between solver threads, as a queue with one cursor per thread. */
module ClauseExchange {
  import opened Basics

  datatype Message = Message(origin: nat, lits: seq<nat>)

  /** A queued clause; `nseen` counts the threads still to read it. */
  datatype Record = Record(nseen: nat, msg: Message)

  /** Position k in the queue; cursor[t] clauses at the front are behind thread t. */
  datatype Buffer = Buffer(queue: seq<Record>, cursor: seq<nat>)

  function Threads(b: Buffer): nat { |b.cursor| }

  function Empty(n: nat): Buffer { Buffer([], seq(n, _ => 0)) }

  // ------------------------------------------------------- steps

  function Push(b: Buffer, t: nat, lits: seq<nat>): Buffer
    requires Threads(b) >= 2
  {
    b.(queue := b.queue + [Record(Threads(b) - 1, Message(t, lits))])
  }

  /** Remove the clause at the front; a cursor before it moves along. */
  function Drop(b: Buffer): Buffer
    requires b.queue != []
  {
    Buffer(b.queue[1..], seq(|b.cursor|, t requires 0 <= t < |b.cursor| => if b.cursor[t] == 0 then 0 else b.cursor[t] - 1))
  }

  /** Remove from the front the clauses that everybody has read. */
  function Purge(b: Buffer): Buffer
    decreases |b.queue|
  {
    if b.queue != [] && b.queue[0].nseen == 0 then Purge(Drop(b)) else b
  }

  /** The first clause from k on that does not come from t. */
  function NextForeign(q: seq<Record>, t: nat, k: nat): (r: nat)
    requires k <= |q|
    ensures k <= r <= |q| && (r < |q| ==> q[r].msg.origin != t)
    ensures forall i :: k <= i < r ==> q[i].msg.origin == t
    decreases |q| - k
  {
    if k < |q| && q[k].msg.origin == t then NextForeign(q, t, k + 1) else k
  }

  /** Thread t has read clause k. */
  function Read(b: Buffer, t: nat, k: nat): Buffer
    requires t < Threads(b) && k < |b.queue| && b.queue[k].nseen > 0
  {
    Buffer(b.queue[k := b.queue[k].(nseen := b.queue[k].nseen - 1)], b.cursor[t := k + 1])
  }

  function Get(b: Buffer, t: nat): Buffer
    requires t < Threads(b) && b.cursor[t] <= |b.queue|
    requires forall k :: b.cursor[t] <= k < |b.queue| && b.queue[k].msg.origin != t ==> b.queue[k].nseen > 0
  {
    var k := NextForeign(b.queue, t, b.cursor[t]);
    if k == |b.queue| then b.(cursor := b.cursor[t := k])
    else if k == 0 then Purge(Read(b, t, 0))
    else Read(b, t, k)
  }

  function Got(b: Buffer, t: nat): Option<Message>
    requires t < Threads(b) && b.cursor[t] <= |b.queue|
  {
    var k := NextForeign(b.queue, t, b.cursor[t]);
    if k == |b.queue| then None else Some(b.queue[k].msg)
  }

  // ------------------------------------------------------- the counters

  /** The threads that still have to read clause k. */
  ghost function Waiting(b: Buffer, k: nat): set<nat>
    requires k < |b.queue|
  {
    set t: nat | t < Threads(b) && t != b.queue[k].msg.origin && b.cursor[t] <= k
  }

  /** The counters are right, up to clauses of which everybody is done. */
  ghost predicate Counted(b: Buffer) {
    && Threads(b) >= 2
    && (forall t :: 0 <= t < Threads(b) ==> b.cursor[t] <= |b.queue|)
    && (forall k :: 0 <= k < |b.queue| ==>
          b.queue[k].msg.origin < Threads(b) && b.queue[k].nseen == |Waiting(b, k)|)
  }

  /** Between two calls, somebody waits for the clause at the front. */
  ghost predicate Settled(b: Buffer) {
    Counted(b) && (b.queue != [] ==> b.queue[0].nseen > 0)
  }

  ghost function Below(n: nat): set<nat> {
    if n == 0 then {} else Below(n - 1) + {n - 1}
  }

  lemma {:induction false} BelowCard(n: nat)
    ensures |Below(n)| == n && forall t: nat :: t in Below(n) <==> t < n
  {
    if n > 0 { BelowCard(n - 1); }
  }

  ghost predicate Waits(b: Buffer, k: nat, t: nat)
    requires k < |b.queue|
  {
    t < Threads(b) && t != b.queue[k].msg.origin && b.cursor[t] <= k
  }

  lemma WaitingIs(b: Buffer, k: nat)
    requires k < |b.queue|
    ensures forall t: nat :: t in Waiting(b, k) <==> Waits(b, k, t)
  {}

  lemma SameWaiting(b: Buffer, k: nat, b2: Buffer, k2: nat, gone: set<nat>)
    requires k < |b.queue| && k2 < |b2.queue| && forall t: nat :: Waits(b2, k2, t) <==> Waits(b, k, t) && t !in gone
    ensures Waiting(b2, k2) == Waiting(b, k) - gone
  {
    hide Waiting, Waits;
    WaitingIs(b, k);
    WaitingIs(b2, k2);
  }

  lemma PushCounted(b: Buffer, t: nat, lits: seq<nat>)
    requires Counted(b) && t < Threads(b)
    ensures Counted(Push(b, t, lits))
  {
    hide Waiting;
    var b2 := Push(b, t, lits);
    var n := |b.queue|;
    forall k | 0 <= k < n ensures Waiting(b2, k) == Waiting(b, k) { SameWaiting(b, k, b2, k, {}); }
    BelowCard(Threads(b));
    WaitingIs(b2, n);
    assert Waiting(b2, n) == Below(Threads(b)) - {t};
  }

  lemma ReadCounted(b: Buffer, t: nat, k: nat)
    requires Counted(b) && t < Threads(b) && b.cursor[t] <= k < |b.queue| && b.queue[k].msg.origin != t
    requires forall i :: b.cursor[t] <= i < k ==> b.queue[i].msg.origin == t
    ensures b.queue[k].nseen > 0 && Counted(Read(b, t, k))
  {
    hide Waiting;
    WaitingIs(b, k);
    assert t in Waiting(b, k);
    var b2 := Read(b, t, k);
    forall i | 0 <= i < |b.queue| ensures Waiting(b2, i) == if i == k then Waiting(b, i) - {t} else Waiting(b, i) {
      if b.cursor[t] <= i < k { assert b.queue[i].msg.origin == t; }
      SameWaiting(b, i, b2, i, if i == k then {t} else {});
    }
  }

  lemma DropCounted(b: Buffer)
    requires Counted(b) && b.queue != []
    ensures Counted(Drop(b))
  {
    hide Waiting;
    var b2 := Drop(b);
    forall k | 0 <= k < |b2.queue| ensures Waiting(b2, k) == Waiting(b, k + 1) {
      SameWaiting(b, k + 1, b2, k, {});
    }
  }

  lemma {:induction false} PurgeSettled(b: Buffer)
    requires Counted(b)
    ensures Settled(Purge(b))
    decreases |b.queue|
  {
    if b.queue != [] && b.queue[0].nseen == 0 {
      DropCounted(b);
      PurgeSettled(Drop(b));
    }
  }

  /** The counter of a clause that t has yet to read is positive: `Get` is defined. */
  lemma UnreadPositive(b: Buffer, t: nat)
    requires Counted(b) && t < Threads(b)
    ensures forall k :: b.cursor[t] <= k < |b.queue| && b.queue[k].msg.origin != t ==> b.queue[k].nseen > 0
  {
    forall k | b.cursor[t] <= k < |b.queue| && b.queue[k].msg.origin != t ensures b.queue[k].nseen > 0 {
      assert t in Waiting(b, k);
    }
  }

  lemma GetSettled(b: Buffer, t: nat)
    requires Settled(b) && t < Threads(b)
    ensures forall k :: b.cursor[t] <= k < |b.queue| && b.queue[k].msg.origin != t ==> b.queue[k].nseen > 0
    ensures Settled(Get(b, t))
  {
    UnreadPositive(b, t);
    var k := NextForeign(b.queue, t, b.cursor[t]);
    if k == |b.queue| {
      var b2 := b.(cursor := b.cursor[t := k]);
      forall i | 0 <= i < |b.queue| ensures Waiting(b2, i) == Waiting(b, i) { SameWaiting(b, i, b2, i, {}); }
    } else {
      ReadCounted(b, t, k);
      if k == 0 { PurgeSettled(Read(b, t, 0)); }
    }
  }

  lemma SettledFacts(b: Buffer)
    requires Settled(b)
    ensures Threads(b) >= 2
  {}

  lemma PushSettled(b: Buffer, t: nat, lits: seq<nat>)
    requires Settled(b) && t < Threads(b)
    ensures Settled(Push(b, t, lits))
  {
    PushCounted(b, t, lits);
  }

  // ------------------------------------------------------- runs

  datatype Event = Pushed(thread: nat, lits: seq<nat>, accepted: bool) | Asked(thread: nat, answer: Option<Message>)

  ghost predicate Step(b: Buffer, e: Event, b2: Buffer) {
    && Settled(b) && e.thread < Threads(b)
    && match e
       case Pushed(t, lits, accepted) => b2 == if accepted then Push(b, t, lits) else b
       case Asked(t, answer) =>
         UnreadPositive(b, t);
         b2 == Get(b, t) && answer == Got(b, t)
  }

  /** Any interleaving of calls, from the empty buffer of n threads. */
  ghost predicate Run(n: nat, es: seq<Event>, bs: seq<Buffer>) {
    && n >= 2 && |bs| == |es| + 1 && bs[0] == Empty(n)
    && forall i :: 0 <= i < |es| ==> Step(bs[i], es[i], bs[i + 1])
  }

  /** The accepted clauses in push order. */
  ghost function Accepted(es: seq<Event>): seq<Message> {
    if es == [] then []
    else
      var e := es[|es| - 1];
      Accepted(es[..|es| - 1]) + if e.Pushed? && e.accepted then [Message(e.thread, e.lits)] else []
  }

  /** What thread t has been handed, in order. */
  ghost function Delivered(es: seq<Event>, t: nat): seq<Message> {
    if es == [] then []
    else
      var e := es[|es| - 1];
      Delivered(es[..|es| - 1], t) + if e.Asked? && e.thread == t && e.answer.Some? then [e.answer.value] else []
  }

  /** The messages of threads other than t. */
  ghost function Foreign(ms: seq<Message>, t: nat): seq<Message> {
    if ms == [] then []
    else Foreign(ms[..|ms| - 1], t) + if ms[|ms| - 1].origin != t then [ms[|ms| - 1]] else []
  }

  ghost function Gone(b: Buffer, ms: seq<Message>): nat
    requires |b.queue| <= |ms|
  {
    |ms| - |b.queue|
  }

  /** The buffer holds the last of the messages ms. */
  ghost predicate Holds(b: Buffer, ms: seq<Message>) {
    && |b.queue| <= |ms|
    && forall k :: 0 <= k < |b.queue| ==> b.queue[k].msg == ms[Gone(b, ms) + k]
  }

  /** g are the messages that lie behind the cursor of t. */
  ghost predicate Behind(b: Buffer, ms: seq<Message>, t: nat, g: seq<Message>) {
    && Holds(b, ms) && t < Threads(b) && b.cursor[t] <= |b.queue|
    && g == Foreign(ms[..Gone(b, ms) + b.cursor[t]], t)
  }

  lemma ForeignNext(ms: seq<Message>, t: nat, k: nat)
    requires k < |ms|
    ensures Foreign(ms[..k + 1], t) == Foreign(ms[..k], t) + if ms[k].origin != t then [ms[k]] else []
  {
    assert ms[..k + 1][..k] == ms[..k];
  }

  lemma {:induction false} ForeignSkips(ms: seq<Message>, t: nat, i: nat, k: nat)
    requires i <= k <= |ms| && forall j :: i <= j < k ==> ms[j].origin == t
    ensures Foreign(ms[..k], t) == Foreign(ms[..i], t)
    decreases k - i
  {
    if i < k {
      ForeignSkips(ms, t, i, k - 1);
      ForeignNext(ms, t, k - 1);
    }
  }

  lemma PushBehind(b: Buffer, ms: seq<Message>, t: nat, lits: seq<nat>, u: nat, g: seq<Message>)
    requires Counted(b) && Behind(b, ms, u, g)
    ensures Behind(Push(b, t, lits), ms + [Message(t, lits)], u, g)
  {
    hide Foreign, Counted, Waiting;
    var ms2 := ms + [Message(t, lits)];
    assert ms2[..Gone(b, ms) + b.cursor[u]] == ms[..Gone(b, ms) + b.cursor[u]];
  }

  /** A dropped clause is behind every other thread's cursor. */
  lemma DropBehind(b: Buffer, ms: seq<Message>, u: nat, g: seq<Message>)
    requires Counted(b) && Behind(b, ms, u, g) && b.queue != [] && b.queue[0].nseen == 0
    ensures Behind(Drop(b), ms, u, g)
  {
    hide Foreign, Waiting;
    if b.cursor[u] == 0 {
      WaitedFor(b, u);
      ForeignNext(ms, u, Gone(b, ms));
    }
  }

  lemma WaitedFor(b: Buffer, u: nat)
    requires Counted(b) && u < Threads(b) && b.cursor[u] == 0 && b.queue != [] && b.queue[0].nseen == 0
    ensures b.queue[0].msg.origin == u
  {
    assert u !in Waiting(b, 0);
  }

  lemma {:induction false} PurgeBehind(b: Buffer, ms: seq<Message>, u: nat, g: seq<Message>)
    requires Counted(b) && Behind(b, ms, u, g)
    ensures Behind(Purge(b), ms, u, g)
    decreases |b.queue|
  {
    hide Counted, Behind;
    if b.queue != [] && b.queue[0].nseen == 0 {
      DropCounted(b);
      DropBehind(b, ms, u, g);
      PurgeBehind(Drop(b), ms, u, g);
    }
  }

  /** What t is handed is the next foreign message after those behind its cursor. */
  lemma ReadBehind(b: Buffer, ms: seq<Message>, t: nat, k: nat, u: nat, g: seq<Message>)
    requires Behind(b, ms, u, g) && t < Threads(b) && b.cursor[t] <= k < |b.queue| && b.queue[k].nseen > 0
    requires b.queue[k].msg.origin != t && forall i :: b.cursor[t] <= i < k ==> b.queue[i].msg.origin == t
    ensures Behind(Read(b, t, k), ms, u, if u == t then g + [b.queue[k].msg] else g)
  {
    hide Foreign;
    if u == t {
      var r := Gone(b, ms);
      forall j | r + b.cursor[t] <= j < r + k ensures ms[j].origin == t {
        assert b.queue[j - r].msg == ms[r + (j - r)];
      }
      ForeignSkips(ms, t, r + b.cursor[t], r + k);
      ForeignNext(ms, t, r + k);
    }
  }

  lemma NothingBehind(b: Buffer, ms: seq<Message>, t: nat, g: seq<Message>)
    requires Behind(b, ms, t, g) && forall i :: b.cursor[t] <= i < |b.queue| ==> b.queue[i].msg.origin == t
    ensures g == Foreign(ms, t)
  {
    hide Foreign;
    var r := Gone(b, ms);
    forall j | r + b.cursor[t] <= j < |ms| ensures ms[j].origin == t {
      assert b.queue[j - r].msg == ms[r + (j - r)];
    }
    ForeignSkips(ms, t, r + b.cursor[t], |ms|);
    assert ms[..|ms|] == ms;
  }

  ghost function Extended(g: seq<Message>, answer: Option<Message>): seq<Message> {
    if answer.Some? then g + [answer.value] else g
  }

  lemma GetBehind(b: Buffer, ms: seq<Message>, t: nat, u: nat, g: seq<Message>)
    requires Settled(b) && Behind(b, ms, u, g) && t < Threads(b)
    ensures forall k :: b.cursor[t] <= k < |b.queue| && b.queue[k].msg.origin != t ==> b.queue[k].nseen > 0
    ensures Behind(Get(b, t), ms, u, if u == t then Extended(g, Got(b, t)) else g)
    ensures u == t && Got(b, t) == None ==> g == Foreign(ms, t)
  {
    hide Behind;
    UnreadPositive(b, t);
    var k := NextForeign(b.queue, t, b.cursor[t]);
    if k == |b.queue| {
      CaughtUp(b, ms, t, u, g);
    } else {
      ReadCounted(b, t, k);
      ReadBehind(b, ms, t, k, u, g);
      if k == 0 { PurgeBehind(Read(b, t, 0), ms, u, if u == t then Extended(g, Got(b, t)) else g); }
    }
  }

  lemma CaughtUp(b: Buffer, ms: seq<Message>, t: nat, u: nat, g: seq<Message>)
    requires Behind(b, ms, u, g) && t < Threads(b) && b.cursor[t] <= |b.queue|
    requires forall i :: b.cursor[t] <= i < |b.queue| ==> b.queue[i].msg.origin == t
    ensures Behind(b.(cursor := b.cursor[t := |b.queue|]), ms, u, g)
    ensures u == t ==> g == Foreign(ms, t)
  {
    if u == t {
      NothingBehind(b, ms, t, g);
      assert ms[..|ms|] == ms;
    }
  }

  lemma {:induction false} RunBehind(n: nat, es: seq<Event>, bs: seq<Buffer>, u: nat)
    requires Run(n, es, bs) && u < n
    ensures Settled(bs[|es|]) && Threads(bs[|es|]) == n && Behind(bs[|es|], Accepted(es), u, Delivered(es, u))
    decreases |es|
  {
    hide Settled, Behind, Step;
    if es == [] {
      EmptyBehind(n, u);
    } else {
      var m := |es| - 1;
      RunBehind(n, es[..m], bs[..m + 1], u);
      assert Step(bs[m], es[m], bs[m + 1]);
      StepBehind(es[..m], bs[m], es[m], bs[m + 1], u);
      assert es == es[..m] + [es[m]];
    }
  }

  lemma EmptyBehind(n: nat, u: nat)
    requires n >= 2 && u < n
    ensures Settled(Empty(n)) && Threads(Empty(n)) == n && Behind(Empty(n), [], u, [])
  {}

  lemma StepBehind(es: seq<Event>, b: Buffer, e: Event, b2: Buffer, u: nat)
    requires Step(b, e, b2) && Behind(b, Accepted(es), u, Delivered(es, u))
    ensures Settled(b2) && Threads(b2) == Threads(b) && Behind(b2, Accepted(es + [e]), u, Delivered(es + [e], u))
    ensures e == Asked(u, None) ==> Delivered(es, u) == Foreign(Accepted(es), u)
  {
    hide Behind, Got, Foreign, Waiting;
    assert (es + [e])[..|es|] == es;
    match e
    case Pushed(t, lits, accepted) =>
      assert Delivered(es + [e], u) == Delivered(es, u);
      assert Accepted(es + [e]) == if accepted then Accepted(es) + [Message(t, lits)] else Accepted(es);
      if accepted {
        PushSettled(b, t, lits);
        PushBehind(b, Accepted(es), t, lits, u, Delivered(es, u));
      }
    case Asked(t, answer) =>
      assert Accepted(es + [e]) == Accepted(es);
      assert Delivered(es + [e], u) == if u == t then Extended(Delivered(es, u), answer) else Delivered(es, u);
      GetSettled(b, t);
      GetBehind(b, Accepted(es), t, u, Delivered(es, u));
      GetThreads(b, t);
  }

  lemma {:induction false} PurgeThreads(b: Buffer)
    ensures Threads(Purge(b)) == Threads(b)
    decreases |b.queue|
  {
    if b.queue != [] && b.queue[0].nseen == 0 { PurgeThreads(Drop(b)); }
  }

  lemma GetThreads(b: Buffer, t: nat)
    requires Counted(b) && t < Threads(b)
    requires forall k :: b.cursor[t] <= k < |b.queue| && b.queue[k].msg.origin != t ==> b.queue[k].nseen > 0
    ensures Threads(Get(b, t)) == Threads(b)
  {
    var k := NextForeign(b.queue, t, b.cursor[t]);
    if k == 0 && k < |b.queue| { PurgeThreads(Read(b, t, 0)); }
  }

  // ------------------------------------------------------- main results

  lemma {:induction false} ForeignPrefix(ms: seq<Message>, t: nat, k: nat)
    requires k <= |ms|
    ensures Foreign(ms[..k], t) <= Foreign(ms, t)
    decreases |ms| - k
  {
    hide Foreign;
    if k < |ms| {
      ForeignNext(ms, t, k);
      ForeignPrefix(ms, t, k + 1);
    } else {
      assert ms[..k] == ms;
    }
  }

  /** In every run each thread is handed the others' accepted clauses in push order, each once. */
  lemma DeliveredInOrder(n: nat, es: seq<Event>, bs: seq<Buffer>, t: nat)
    requires Run(n, es, bs) && t < n
    ensures Delivered(es, t) <= Foreign(Accepted(es), t)
  {
    RunBehind(n, es, bs, t);
    var b := bs[|es|];
    ForeignPrefix(Accepted(es), t, Gone(b, Accepted(es)) + b.cursor[t]);
  }

  /** A clause that has left the buffer has been handed to every other thread. */
  lemma RemovedWereDelivered(n: nat, es: seq<Event>, bs: seq<Buffer>, i: nat, t: nat)
    requires Run(n, es, bs) && t < n && i < |Accepted(es)| - |bs[|es|].queue| && Accepted(es)[i].origin != t
    ensures |Foreign(Accepted(es)[..i], t)| < |Delivered(es, t)|
    ensures Delivered(es, t)[|Foreign(Accepted(es)[..i], t)|] == Accepted(es)[i]
  {
    hide Settled, Accepted, Delivered, Foreign;
    RunBehind(n, es, bs, t);
    var b, ms := bs[|es|], Accepted(es);
    var p := ms[..Gone(b, ms) + b.cursor[t]];
    assert p[..i + 1] == ms[..i + 1];
    ForeignPrefix(p, t, i + 1);
    ForeignNext(ms, t, i);
  }

  /** A thread is turned away only when it has everything, and the clause at the front is always
      awaited by somebody. */
  lemma NothingWithheld(n: nat, es: seq<Event>, bs: seq<Buffer>, i: nat)
    requires Run(n, es, bs) && i < |es|
    ensures es[i].Asked? && es[i].answer == None
            ==> Delivered(es[..i], es[i].thread) == Foreign(Accepted(es[..i]), es[i].thread)
    ensures bs[i].queue != [] ==> Waiting(bs[i], 0) != {}
  {
    assert Step(bs[i], es[i], bs[i + 1]);
    FirstThread(n, es[..i], bs[..i + 1]);
    RunBehind(n, es[..i], bs[..i + 1], es[i].thread);
    StepBehind(es[..i], bs[i], es[i], bs[i + 1], es[i].thread);
  }

  lemma FirstThread(n: nat, es: seq<Event>, bs: seq<Buffer>)
    requires Run(n, es, bs)
    ensures Threads(bs[|es|]) == n
  {
    RunBehind(n, es, bs, 0);
  }
}
