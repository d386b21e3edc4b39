/** The fixed-length ring that stores the exchanged clauses as words: size, counter, origin, literals. */
module ClauseRing {
  import opened Basics
  import opened ClauseExchange

  const HEADER_SIZE := 3

  // ------------------------------------------------------- positions

  /** The position a places after i in a ring of m places. */
  function At(m: nat, i: nat, a: nat): nat
    requires i < m && a <= m
  {
    if i + a >= m then i + a - m else i + a
  }

  /** The n words after position last. */
  ghost function Window(elems: seq<nat>, last: nat, n: nat): seq<nat>
    requires last < |elems| && n <= |elems|
  {
    seq(n, i requires 0 <= i < n => elems[At(|elems|, last, i + 1)])
  }

  // ------------------------------------------------------- records as words

  ghost function Words(r: Record): (w: seq<nat>)
    ensures |w| == HEADER_SIZE + |r.msg.lits|
  {
    [|r.msg.lits|, r.nseen, r.msg.origin] + r.msg.lits
  }

  ghost function Encode(q: seq<Record>): seq<nat> {
    if q == [] then [] else Words(q[0]) + Encode(q[1..])
  }

  /** Number of words of the first k records. */
  ghost function Offset(q: seq<Record>, k: nat): nat
    requires k <= |q|
  {
    if k == 0 then 0 else Offset(q, k - 1) + HEADER_SIZE + |q[k - 1].msg.lits|
  }

  lemma {:induction false} OffsetMonotone(q: seq<Record>, j: nat, k: nat)
    requires j <= k <= |q|
    ensures Offset(q, j) + HEADER_SIZE * (k - j) <= Offset(q, k)
    decreases k - j
  {
    if j < k { OffsetMonotone(q, j, k - 1); }
  }

  lemma {:induction false} EncodeConcat(p: seq<Record>, q: seq<Record>)
    ensures Encode(p + q) == Encode(p) + Encode(q)
  {
    if p == [] {
      assert p + q == q;
    } else {
      EncodeConcat(p[1..], q);
      assert (p + q)[1..] == p[1..] + q;
    }
  }

  lemma EncodeOne(r: Record)
    ensures Encode([r]) == Words(r)
  {
    assert [r][1..] == [];
  }

  lemma {:induction false} OffsetIsLength(q: seq<Record>, k: nat)
    requires k <= |q|
    ensures Offset(q, k) == |Encode(q[..k])|
    decreases k
  {
    if k > 0 {
      OffsetIsLength(q, k - 1);
      assert q[..k] == q[..k - 1] + [q[k - 1]];
      EncodeConcat(q[..k - 1], [q[k - 1]]);
      EncodeOne(q[k - 1]);
    }
  }

  /** Where record k lies among the words. */
  lemma EncodeSplit(q: seq<Record>, k: nat)
    requires k < |q|
    ensures Encode(q) == Encode(q[..k]) + Words(q[k]) + Encode(q[k + 1..])
    ensures Offset(q, k) == |Encode(q[..k])|
    ensures Offset(q, k + 1) == Offset(q, k) + HEADER_SIZE + |q[k].msg.lits| <= |Encode(q)|
  {
    assert q == q[..k] + ([q[k]] + q[k + 1..]);
    EncodeConcat(q[..k], [q[k]] + q[k + 1..]);
    EncodeConcat([q[k]], q[k + 1..]);
    EncodeOne(q[k]);
    OffsetIsLength(q, k);
  }

  lemma RecordWords(q: seq<Record>, k: nat)
    requires k < |q|
    ensures Offset(q, k) + HEADER_SIZE + |q[k].msg.lits| <= |Encode(q)|
    ensures forall i :: 0 <= i < HEADER_SIZE + |q[k].msg.lits| ==> Encode(q)[Offset(q, k) + i] == Words(q[k])[i]
  {
    hide Encode;
    EncodeSplit(q, k);
  }

  lemma OffsetEnd(q: seq<Record>)
    ensures Offset(q, |q|) == |Encode(q)|
  {
    OffsetIsLength(q, |q|);
    assert q[..|q|] == q;
  }

  /** Changing a counter changes one word. */
  lemma EncodeCounter(q: seq<Record>, k: nat, x: nat)
    requires k < |q|
    ensures Offset(q, k) + 1 < |Encode(q)|
    ensures Encode(q[k := q[k].(nseen := x)]) == Encode(q)[Offset(q, k) + 1 := x]
    ensures forall j :: 0 <= j <= |q| ==> Offset(q[k := q[k].(nseen := x)], j) == Offset(q, j)
  {
    var q2 := q[k := q[k].(nseen := x)];
    EncodeSplit(q, k);
    EncodeSplit(q2, k);
    assert q2[..k] == q[..k] && q2[k + 1..] == q[k + 1..];
    assert Words(q2[k]) == Words(q[k])[1 := x];
    forall j | 0 <= j <= |q| ensures Offset(q2, j) == Offset(q, j) { OffsetSame(q, q2, j); }
  }

  lemma {:induction false} OffsetSame(q: seq<Record>, q2: seq<Record>, k: nat)
    requires k <= |q| && k <= |q2| && forall i :: 0 <= i < k ==> |q[i].msg.lits| == |q2[i].msg.lits|
    ensures Offset(q, k) == Offset(q2, k)
    decreases k
  {
    if k > 0 { OffsetSame(q, q2, k - 1); }
  }

  lemma {:induction false} OffsetDrop(q: seq<Record>, k: nat)
    requires k < |q|
    ensures Offset(q, k + 1) == HEADER_SIZE + |q[0].msg.lits| + Offset(q[1..], k)
    decreases k
  {
    if k > 0 { OffsetDrop(q, k - 1); } else { assert Offset(q, 1) == Offset(q, 0) + HEADER_SIZE + |q[0].msg.lits|; }
  }

  // ------------------------------------------------------- representation

  datatype Ring = Ring(elems: seq<nat>, first: nat, last: nat, size: nat, lastOf: seq<nat>)

  /** The ring holds n words after `last`, and `first` is the next free place. */
  ghost predicate Shape(r: Ring, n: nat) {
    r.last < |r.elems| && n < |r.elems| && r.first == At(|r.elems|, r.last, n + 1)
  }

  /** Where thread t stands. */
  ghost predicate Stands(r: Ring, b: Buffer, t: nat)
    requires r.last < |r.elems| && t < |r.lastOf| && t < Threads(b)
  {
    && b.cursor[t] <= |b.queue| && Offset(b.queue, b.cursor[t]) <= |r.elems|
    && r.lastOf[t] == At(|r.elems|, r.last, Offset(b.queue, b.cursor[t]))
  }

  /** The ring stores the buffer. */
  ghost predicate Stores(r: Ring, b: Buffer) {
    && Shape(r, r.size) && Window(r.elems, r.last, r.size) == Encode(b.queue)
    && |r.lastOf| == Threads(b) && forall t :: 0 <= t < Threads(b) ==> Stands(r, b, t)
  }

  /** The word d places behind `last`. */
  lemma WordAt(r: Ring, b: Buffer, d: nat)
    requires Stores(r, b) && d < r.size
    ensures |Encode(b.queue)| == r.size && r.elems[At(|r.elems|, r.last, d + 1)] == Encode(b.queue)[d]
  {
    assert Window(r.elems, r.last, r.size)[d] == Encode(b.queue)[d];
  }

  // ------------------------------------------------------- pushing

  ghost function PushWord(r: Ring, x: nat): Ring
    requires r.first < |r.elems|
  {
    r.(elems := r.elems[r.first := x], first := if r.first + 1 == |r.elems| then 0 else r.first + 1)
  }

  lemma PushWordWindow(r: Ring, n: nat, x: nat)
    requires Shape(r, n) && n + 1 < |r.elems|
    ensures r.first < |r.elems| && Shape(PushWord(r, x), n + 1)
    ensures Window(PushWord(r, x).elems, r.last, n + 1) == Window(r.elems, r.last, n) + [x]
  {
    var w, w2 := Window(r.elems, r.last, n), Window(PushWord(r, x).elems, r.last, n + 1);
    forall i | 0 <= i < n + 1 ensures w2[i] == (w + [x])[i] {
      if i < n { assert w[i] == r.elems[At(|r.elems|, r.last, i + 1)]; }
    }
  }

  /** r2 is r with the words w pushed, not yet counted in its size. */
  ghost predicate Pushing(r: Ring, r2: Ring, w: seq<nat>) {
    && |r2.elems| == |r.elems| && r2.last == r.last && r2.size == r.size && r2.lastOf == r.lastOf
    && Shape(r, r.size) && Shape(r2, r.size + |w|)
    && Window(r2.elems, r.last, r.size + |w|) == Window(r.elems, r.last, r.size) + w
  }

  lemma PushStart(r: Ring)
    requires Shape(r, r.size)
    ensures Pushing(r, r, [])
  {}

  lemma PushMore(r: Ring, r2: Ring, w: seq<nat>, x: nat)
    requires Pushing(r, r2, w) && r.size + |w| + 1 < |r.elems|
    ensures r2.first < |r2.elems| == |r.elems| && Pushing(r, PushWord(r2, x), w + [x])
  {
    PushWordWindow(r2, r.size + |w|, x);
    assert Window(r.elems, r.last, r.size) + (w + [x]) == Window(r.elems, r.last, r.size) + w + [x];
  }

  /** The ring once the words of a new record have been pushed. */
  lemma PushStores(r: Ring, r2: Ring, b: Buffer, t: nat, lits: seq<nat>)
    requires Stores(r, b) && Threads(b) >= 2 && Pushing(r, r2, Words(Record(Threads(b) - 1, Message(t, lits))))
    ensures Stores(r2.(size := r.size + |lits| + HEADER_SIZE), Push(b, t, lits))
  {
    var b2, rec := Push(b, t, lits), Record(Threads(b) - 1, Message(t, lits));
    EncodeConcat(b.queue, [rec]);
    EncodeOne(rec);
    var r3 := r2.(size := r.size + |lits| + HEADER_SIZE);
    assert |Words(rec)| == |lits| + HEADER_SIZE;
    forall u | 0 <= u < Threads(b) ensures Stands(r3, b2, u) {
      assert Stands(r, b, u);
      OffsetSame(b.queue, b2.queue, b.cursor[u]);
    }
  }

  lemma EmptyStores(r: Ring, n: nat)
    requires |r.elems| > 0 && r.first == 0 && r.last == |r.elems| - 1 && r.size == 0
    requires r.lastOf == seq(n, _ => |r.elems| - 1)
    ensures Stores(r, Empty(n))
  {}

  // ------------------------------------------------------- positions of clauses

  /** The place just before record k. */
  ghost function Place(r: Ring, b: Buffer, k: nat): nat
    requires Stores(r, b) && k <= |b.queue|
    ensures Offset(b.queue, k) <= r.size
    ensures Place(r, b, k) == At(|r.elems|, r.last, Offset(b.queue, k)) < |r.elems|
  {
    OffsetEnd(b.queue);
    OffsetMonotone(b.queue, k, |b.queue|);
    At(|r.elems|, r.last, Offset(b.queue, k))
  }

  /** Before the first free place there is no clause; at the front is record 0. */
  lemma PlaceKnown(r: Ring, b: Buffer, k: nat)
    requires Stores(r, b) && k <= |b.queue|
    ensures At(|r.elems|, Place(r, b, k), 1) == r.first <==> k == |b.queue|
    ensures Place(r, b, k) == r.last <==> k == 0
    ensures r.size == 0 <==> b.queue == []
  {
    OffsetEnd(b.queue);
    OffsetMonotone(b.queue, k, |b.queue|);
    OffsetMonotone(b.queue, 0, k);
  }

  /** A cursor is never behind the front: the repair of overtaken cursors is not needed. */
  lemma NotOvertaken(r: Ring, b: Buffer, k: nat)
    requires Stores(r, b) && k <= |b.queue|
    ensures var p := Place(r, b, k);
            !((p < r.last && r.last < r.first) || (r.first < p && p < r.last) || (r.last < r.first && r.first < p))
  {}

  /** The words of record k, seen from the place before it. */
  lemma RecordAt(r: Ring, b: Buffer, k: nat)
    requires Stores(r, b) && k < |b.queue|
    ensures var p, m, q := Place(r, b, k), |r.elems|, b.queue[k];
            && Offset(b.queue, k) + HEADER_SIZE + |q.msg.lits| <= r.size
            && r.elems[At(m, p, 1)] == |q.msg.lits| && r.elems[At(m, p, 2)] == q.nseen
            && r.elems[At(m, p, 3)] == q.msg.origin
            && Place(r, b, k + 1) == At(m, p, HEADER_SIZE + |q.msg.lits|)
            && forall i :: 0 <= i < |q.msg.lits| ==> r.elems[At(m, p, HEADER_SIZE + i + 1)] == q.msg.lits[i]
  {
    hide Stores, Encode;
    StoresFacts(r, b);
    RecordWords(b.queue, k);
    WordOf(r, b, k, 0);
    WordOf(r, b, k, 1);
    WordOf(r, b, k, 2);
    forall i | 0 <= i < |b.queue[k].msg.lits|
      ensures r.elems[At(|r.elems|, Place(r, b, k), HEADER_SIZE + i + 1)] == b.queue[k].msg.lits[i]
    {
      WordOf(r, b, k, HEADER_SIZE + i);
    }
  }

  lemma WordOf(r: Ring, b: Buffer, k: nat, i: nat)
    requires Stores(r, b) && k < |b.queue| && i < HEADER_SIZE + |b.queue[k].msg.lits|
    ensures Offset(b.queue, k) + i < r.size
    ensures r.elems[At(|r.elems|, Place(r, b, k), i + 1)] == Words(b.queue[k])[i]
  {
    hide Stores, Encode, Words;
    StoresFacts(r, b);
    RecordWords(b.queue, k);
    WordAt(r, b, Offset(b.queue, k) + i);
    assert Encode(b.queue)[Offset(b.queue, k) + i] == Words(b.queue[k])[i];
  }

  /** What the loop that removes clauses sees of the front. */
  ghost predicate AtFront(r: Ring, b: Buffer) {
    && r.last < |r.elems| && r.size < |r.elems| && (r.size > 0 <==> b.queue != [])
    && (b.queue != [] ==> r.size >= HEADER_SIZE && r.elems[At(|r.elems|, r.last, 2)] == b.queue[0].nseen)
  }

  lemma FrontCounter(r: Ring, b: Buffer)
    requires Stores(r, b)
    ensures AtFront(r, b)
  {
    PlaceKnown(r, b, 0);
    if b.queue != [] { RecordAt(r, b, 0); }
  }

  /** The word that names the origin of the clause behind place p. */
  ghost predicate OriginIs(r: Ring, p: nat, q: seq<Record>, k: nat) {
    && p < |r.elems|
    && (k < |q| ==> HEADER_SIZE <= |r.elems| && r.elems[At(|r.elems|, p, 3)] == q[k].msg.origin)
  }

  lemma OriginAt(r: Ring, b: Buffer, k: nat)
    requires Stores(r, b) && k <= |b.queue|
    ensures OriginIs(r, Place(r, b, k), b.queue, k)
  {
    if k < |b.queue| { RecordAt(r, b, k); }
  }

  lemma StoresFacts(r: Ring, b: Buffer)
    requires Stores(r, b)
    ensures Shape(r, r.size) && |Encode(b.queue)| == r.size && |r.lastOf| == Threads(b)
    ensures forall t :: 0 <= t < Threads(b) ==> Stands(r, b, t)
  {}

  // ------------------------------------------------------- removing

  /** The ring without its first clause. */
  ghost function DropFront(r: Ring, n: nat): Ring
    requires r.last < |r.elems| && n <= r.size && n <= |r.elems|
  {
    var next := At(|r.elems|, r.last, n);
    Ring(r.elems, r.first, next, r.size - n,
         seq(|r.lastOf|, t requires 0 <= t < |r.lastOf| => if r.lastOf[t] == r.last then next else r.lastOf[t]))
  }

  lemma DropStores(r: Ring, b: Buffer)
    requires Stores(r, b) && b.queue != []
    ensures HEADER_SIZE + |b.queue[0].msg.lits| <= r.size
    ensures Stores(DropFront(r, HEADER_SIZE + |b.queue[0].msg.lits|), Drop(b))
  {
    RecordAt(r, b, 0);
    var w := HEADER_SIZE + |b.queue[0].msg.lits|;
    DropWindow(r, b, w);
    forall t | 0 <= t < Threads(b) ensures Stands(DropFront(r, w), Drop(b), t) { DropStands(r, b, w, t); }
  }

  lemma DropWindow(r: Ring, b: Buffer, w: nat)
    requires Stores(r, b) && b.queue != [] && w == HEADER_SIZE + |b.queue[0].msg.lits| <= r.size
    ensures var r2 := DropFront(r, w);
            Shape(r2, r2.size) && Window(r2.elems, r2.last, r2.size) == Encode(b.queue[1..])
  {
    var r2 := DropFront(r, w);
    var win := Window(r.elems, r.last, r.size);
    assert Encode(b.queue) == Words(b.queue[0]) + Encode(b.queue[1..]);
    forall i | 0 <= i < r2.size ensures Window(r2.elems, r2.last, r2.size)[i] == win[w + i] {}
  }

  lemma DropStands(r: Ring, b: Buffer, w: nat, t: nat)
    requires Stores(r, b) && b.queue != [] && w == HEADER_SIZE + |b.queue[0].msg.lits| <= r.size && t < Threads(b)
    ensures Stands(DropFront(r, w), Drop(b), t)
  {
    hide Stores, Encode, Window;
    StoresFacts(r, b);
    assert Stands(r, b, t);
    PlaceKnown(r, b, b.cursor[t]);
    OffsetEnd(b.queue);
    OffsetMonotone(b.queue, b.cursor[t], |b.queue|);
    if b.cursor[t] > 0 { OffsetDrop(b.queue, b.cursor[t] - 1); }
  }

  // ------------------------------------------------------- reading

  /** Counting down the counter of record k. */
  lemma CountDown(r: Ring, b: Buffer, k: nat, x: nat)
    requires Stores(r, b) && k < |b.queue|
    ensures Stores(r.(elems := r.elems[At(|r.elems|, Place(r, b, k), 2) := x]),
                   b.(queue := b.queue[k := b.queue[k].(nseen := x)]))
  {
    hide Encode;
    var m, d := |r.elems|, Offset(b.queue, k);
    RecordAt(r, b, k);
    var r2 := r.(elems := r.elems[At(m, Place(r, b, k), 2) := x]);
    EncodeCounter(b.queue, k, x);
    var win, win2 := Window(r.elems, r.last, r.size), Window(r2.elems, r.last, r.size);
    forall i | 0 <= i < r.size ensures win2[i] == win[d + 1 := x][i] {}
    var b2 := b.(queue := b.queue[k := b.queue[k].(nseen := x)]);
    forall t | 0 <= t < Threads(b) ensures Stands(r2, b2, t) {
      assert Stands(r, b, t);
    }
  }

  /** One reader less of record k. */
  function Counted1(b: Buffer, k: nat): Buffer
    requires k < |b.queue| && b.queue[k].nseen > 0
  {
    b.(queue := b.queue[k := b.queue[k].(nseen := b.queue[k].nseen - 1)])
  }

  lemma SamePlaces(b: Buffer, k: nat)
    requires k < |b.queue| && b.queue[k].nseen > 0
    ensures forall j :: 0 <= j <= |b.queue| ==> Offset(Counted1(b, k).queue, j) == Offset(b.queue, j)
  {
    forall j | 0 <= j <= |b.queue| ensures Offset(Counted1(b, k).queue, j) == Offset(b.queue, j) {
      OffsetSame(b.queue, Counted1(b, k).queue, j);
    }
  }

  lemma StandsAt(r: Ring, b: Buffer, t: nat)
    requires Stores(r, b) && t < Threads(b)
    ensures t < |r.lastOf| && b.cursor[t] <= |b.queue| && r.lastOf[t] == Place(r, b, b.cursor[t])
  {
    assert Stands(r, b, t);
  }

  lemma FrontPlace(r: Ring, b: Buffer)
    requires Stores(r, b)
    ensures r.last == Place(r, b, 0)
  {}

  lemma MoveCursor(r: Ring, b: Buffer, t: nat, k: nat)
    requires Stores(r, b) && t < Threads(b) && k <= |b.queue|
    ensures Stores(r.(lastOf := r.lastOf[t := Place(r, b, k)]), b.(cursor := b.cursor[t := k]))
  {
    hide Encode, Window;
    var r2, b2 := r.(lastOf := r.lastOf[t := Place(r, b, k)]), b.(cursor := b.cursor[t := k]);
    forall u | 0 <= u < Threads(b) ensures Stands(r2, b2, u) {
      assert Stands(r, b, u);
    }
  }

  lemma {:induction false} PurgeKeepsFront(b: Buffer, t: nat)
    requires t < Threads(b) && b.cursor[t] == 0
    ensures t < Threads(Purge(b)) && Purge(b).cursor[t] == 0
    decreases |b.queue|
  {
    if b.queue != [] && b.queue[0].nseen == 0 { PurgeKeepsFront(Drop(b), t); }
  }

  /** Reading the front clause as the last of its readers, with the cursor moved afterwards. */
  lemma LastReader(b: Buffer, t: nat)
    requires t < Threads(b) && b.cursor[t] == 0 && b.queue != [] && b.queue[0].nseen == 1
    ensures Purge(Drop(Counted1(b, 0))) == Purge(Read(b, t, 0))
    ensures t < Threads(Purge(Read(b, t, 0))) && Purge(Read(b, t, 0)).cursor[t] == 0
  {
    var counted := Counted1(b, 0);
    assert Drop(counted) == Drop(Read(b, t, 0));
    PurgeKeepsFront(Drop(counted), t);
  }

  /** Counting down and moving the cursor is the step of the exchange, unless the front was cleared. */
  lemma ReadIsGet(b: Buffer, t: nat)
    requires Settled(b) && t < Threads(b)
    ensures forall k :: b.cursor[t] <= k < |b.queue| && b.queue[k].msg.origin != t ==> b.queue[k].nseen > 0
    ensures var k := NextForeign(b.queue, t, b.cursor[t]);
            k < |b.queue| ==>
              && b.queue[k].nseen > 0
              && (k == 0 && b.queue[0].nseen == 1 ==> Get(b, t) == Purge(Read(b, t, 0)))
              && (k > 0 || b.queue[0].nseen > 1 ==> Get(b, t) == Read(b, t, k))
  {
    UnreadPositive(b, t);
  }
}
