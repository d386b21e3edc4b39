/** The binary form of gates: differences of literals in groups of seven bits. */
module AigBinary {
  import opened Aig
  import opened AigReencode
  import opened AigRenumber

  const WORD: nat := 0x1_0000_0000

  datatype ReadError = UnexpectedEof | InvalidCode | UndefinedShift | InvalidDelta

  /** A value and the position behind it. */
  datatype ReadResult<T> = Got(value: T, next: nat) | Failed(error: ReadError)

  // ------------------------------------------------------- one difference

  /** The bytes of d, seven bits each, least significant first; all but the last have the top bit set. */
  function DeltaBytes(d: nat): seq<nat> {
    if d < 128 then [d] else [d % 128 + 128] + DeltaBytes(d / 128)
  }

  method WriteDelta(buffer: seq<nat>, delta: nat) returns (res: seq<nat>)
    ensures res == buffer + DeltaBytes(delta)
  {
    res := buffer;
    var tmp := delta;
    while tmp >= 128
      invariant res + DeltaBytes(tmp) == buffer + DeltaBytes(delta)
    {
      var ch := tmp % 128;
      ch := ch + 128;
      res := res + [ch];
      tmp := tmp / 128;
    }
    res := res + [tmp];
  }

  function Shift(i: nat): nat { if i == 0 then 1 else 128 * Shift(i - 1) }

  /** Reading from byte i of a code on, with the low bits r already read; words have 32 bits. */
  function ReadFrom(bytes: seq<nat>, pos: nat, i: nat, r: nat): ReadResult<nat>
    requires pos <= |bytes| && i <= 5
    decreases |bytes| - pos
  {
    if pos == |bytes| then Failed(UnexpectedEof)
    else if bytes[pos] >= 128 then
      if i == 5 then Failed(InvalidCode)
      else ReadFrom(bytes, pos + 1, i + 1, (r + bytes[pos] % 128 * Shift(i)) % WORD)
    else if i == 5 then Failed(if bytes[pos] >= 8 then InvalidCode else UndefinedShift)
    else Got((r + bytes[pos] * Shift(i)) % WORD, pos + 1)
  }

  method ReadDelta(bytes: seq<nat>, start: nat) returns (res: ReadResult<nat>)
    requires start <= |bytes|
    ensures res == ReadFrom(bytes, start, 0, 0)
  {
    if start == |bytes| { return Failed(UnexpectedEof); }
    var i: nat, r: nat, pos := 0, 0, start;
    while bytes[pos] >= 128
      invariant start <= pos < |bytes| && i <= 5
      invariant ReadFrom(bytes, pos, i, r) == ReadFrom(bytes, start, 0, 0)
      decreases |bytes| - pos
    {
      if i == 5 { return Failed(InvalidCode); }
      r := (r + bytes[pos] % 128 * Shift(i)) % WORD;
      i := i + 1;
      pos := pos + 1;
      if pos == |bytes| { return Failed(UnexpectedEof); }
    }
    if i == 5 {
      return Failed(if bytes[pos] >= 8 then InvalidCode else UndefinedShift);
    }
    res := Got((r + bytes[pos] * Shift(i)) % WORD, pos + 1);
  }

  lemma {:induction false} ShiftPositive(i: nat)
    ensures Shift(i) > 0
  {
    if i > 0 { ShiftPositive(i - 1); }
  }

  /** The bytes of d stand at pos. */
  ghost predicate StandsAt(bytes: seq<nat>, pos: nat, s: seq<nat>) {
    pos + |s| <= |bytes| && bytes[pos..pos + |s|] == s
  }

  lemma SplitShift(d: nat, s: nat)
    ensures d % 128 * s + d / 128 * (128 * s) == d * s
  {
    assert d == d % 128 + 128 * (d / 128);
    assert (d % 128 + 128 * (d / 128)) * s == d % 128 * s + 128 * (d / 128) * s;
    assert 128 * (d / 128) * s == d / 128 * (128 * s);
  }

  lemma ProductMonotone(a: nat, b: nat, s: nat)
    requires a <= b
    ensures a * s <= b * s
  {}

  /** Reading gives back what was written and consumes exactly its bytes. */
  lemma {:induction false} ReadWritten(bytes: seq<nat>, pos: nat, i: nat, r: nat, d: nat)
    requires i <= 4 && StandsAt(bytes, pos, DeltaBytes(d)) && r + d * Shift(i) < WORD
    ensures ReadFrom(bytes, pos, i, r) == Got(r + d * Shift(i), pos + |DeltaBytes(d)|)
    decreases d
  {
    hide Shift;
    var s := DeltaBytes(d);
    assert bytes[pos] == bytes[pos..pos + |s|][0] == s[0];
    if d >= 128 {
      LongNeedsRoom(i, r, d);
      LowBits(i, r, d);
      assert bytes[pos + 1..pos + |s|] == bytes[pos..pos + |s|][1..] == s[1..] == DeltaBytes(d / 128);
      assert s[0] % 128 == d % 128;
      ReadWritten(bytes, pos + 1, i + 1, r + d % 128 * Shift(i), d / 128);
    }
  }

  /** The low seven bits and the rest add up. */
  lemma LowBits(i: nat, r: nat, d: nat)
    requires r + d * Shift(i) < WORD
    ensures d % 128 * Shift(i) + d / 128 * Shift(i + 1) == d * Shift(i)
    ensures r + d % 128 * Shift(i) < WORD
    ensures (r + d % 128 * Shift(i)) % WORD == r + d % 128 * Shift(i)
  {
    SplitShift(d, Shift(i));
    assert Shift(i + 1) == 128 * Shift(i);
    ProductMonotone(d % 128, d, Shift(i));
  }

  /** A value of more than seven bits behind four groups would not fit into 32 bits. */
  lemma LongNeedsRoom(i: nat, r: nat, d: nat)
    requires i <= 4 && d >= 128 && r + d * Shift(i) < WORD
    ensures i < 4
  {
    if i == 4 {
      assert Shift(4) == 0x1000_0000;
      ProductMonotone(128, d, Shift(4));
    }
  }

  /** The round trip, for every 32-bit difference. */
  lemma DeltaRoundTrip(before: seq<nat>, d: nat, after: seq<nat>)
    requires d < WORD
    ensures ReadFrom(before + DeltaBytes(d) + after, |before|, 0, 0) == Got(d, |before| + |DeltaBytes(d)|)
  {
    var bytes := before + DeltaBytes(d) + after;
    assert bytes[|before|..|before| + |DeltaBytes(d)|] == DeltaBytes(d);
    assert Shift(0) == 1;
    ReadWritten(bytes, |before|, 0, 0, d);
  }

  // ------------------------------------------------------- arbitrary bytes

  /** At pos there are n bytes with the top bit set, then one without. */
  ghost predicate CodeAt(bytes: seq<nat>, pos: nat, n: nat) {
    pos + n < |bytes| && bytes[pos + n] < 128 && forall k :: pos <= k < pos + n ==> bytes[k] >= 128
  }

  /** The number that the bytes from pos on spell, whatever its size. */
  function Spelled(bytes: seq<nat>, pos: nat): nat
    decreases |bytes| - pos
  {
    if pos >= |bytes| then 0
    else if bytes[pos] < 128 then bytes[pos]
    else bytes[pos] % 128 + 128 * Spelled(bytes, pos + 1)
  }

  /** The last byte holds what lies above the bits of the others. */
  lemma {:induction false} TopByte(bytes: seq<nat>, pos: nat, n: nat) returns (low: nat)
    requires CodeAt(bytes, pos, n)
    ensures low < Shift(n) && Spelled(bytes, pos) == low + bytes[pos + n] * Shift(n)
    decreases n
  {
    if n == 0 {
      low := 0;
    } else {
      var rest := TopByte(bytes, pos + 1, n - 1);
      low := bytes[pos] % 128 + 128 * rest;
      assert bytes[pos + n] * Shift(n) == 128 * (bytes[pos + n] * Shift(n - 1));
    }
  }

  // ------------------------------------------------------- the shortest code

  /** What is written is a code of bytes that spells the number. */
  lemma {:induction false} DeltaIsCode(d: nat)
    ensures var s := DeltaBytes(d);
            CodeAt(s, 0, |s| - 1) && Spelled(s, 0) == d && forall k :: 0 <= k < |s| ==> s[k] < 256
  {
    var s := DeltaBytes(d);
    if d >= 128 {
      DeltaIsCode(d / 128);
      SpelledTail(s, 1);
      assert s[1..] == DeltaBytes(d / 128);
    }
  }

  lemma {:induction false} SpelledTail(bytes: seq<nat>, pos: nat)
    requires pos <= |bytes|
    ensures Spelled(bytes, pos) == Spelled(bytes[pos..], 0)
    decreases |bytes| - pos
  {
    if pos < |bytes| && bytes[pos] >= 128 {
      SpelledTail(bytes, pos + 1);
      SpelledTail(bytes[pos..], 1);
      assert bytes[pos..][1..] == bytes[pos + 1..];
    }
  }

  /** Every code of a number has at least as many bytes as the one written, and if it has as many, it is that one. */
  lemma {:induction false} DeltaShortest(d: nat, bytes: seq<nat>, pos: nat, n: nat)
    requires CodeAt(bytes, pos, n) && Spelled(bytes, pos) == d
    ensures |DeltaBytes(d)| <= n + 1
    ensures |DeltaBytes(d)| == n + 1 && (forall k :: pos <= k <= pos + n ==> bytes[k] < 256) ==>
              bytes[pos..pos + n + 1] == DeltaBytes(d)
    decreases n
  {
    if n > 0 {
      var rest := Spelled(bytes, pos + 1);
      assert d == bytes[pos] % 128 + 128 * rest && d / 128 == rest && d % 128 == bytes[pos] % 128;
      DeltaShortest(rest, bytes, pos + 1, n - 1);
      assert bytes[pos..pos + n + 1] == [bytes[pos]] + bytes[pos + 1..pos + n + 1];
    } else {
      assert bytes[pos..pos + 1] == [bytes[pos]];
    }
  }

  lemma AddedLater(a: nat, b: nat)
    ensures (a % WORD + b) % WORD == (a + b) % WORD
  {}

  /** A code of at most five bytes is read as what it spells, modulo the word size. */
  lemma {:induction false} ReadSpelled(bytes: seq<nat>, pos: nat, n: nat, i: nat, r: nat)
    requires CodeAt(bytes, pos, n) && i + n <= 4
    ensures ReadFrom(bytes, pos, i, r) == Got((r + Spelled(bytes, pos) * Shift(i)) % WORD, pos + n + 1)
    decreases n
  {
    hide Shift;
    if n > 0 {
      var a, b := bytes[pos] % 128, Spelled(bytes, pos + 1);
      ReadSpelled(bytes, pos + 1, n - 1, i + 1, (r + a * Shift(i)) % WORD);
      ShiftNext(i);
      SpelledNext(r, a, b, Shift(i), Shift(i + 1));
    }
  }

  lemma SpelledNext(r: nat, a: nat, b: nat, s: nat, s2: nat)
    requires s2 == 128 * s
    ensures ((r + a * s) % WORD + b * s2) % WORD == (r + (a + 128 * b) * s) % WORD
  {
    SpelledShifted(a, b, s);
    AddedLater(r + a * s, b * s2);
  }

  lemma ShiftNext(i: nat)
    ensures Shift(i + 1) == 128 * Shift(i)
  {}

  lemma SpelledShifted(a: nat, b: nat, s: nat)
    ensures (a + 128 * b) * s == a * s + b * (128 * s)
  {}

  /** A longer code is refused, or shifted by more bits than a word has. */
  lemma {:induction false} ReadLong(bytes: seq<nat>, pos: nat, n: nat, i: nat, r: nat)
    requires CodeAt(bytes, pos, n) && i + n >= 5 && i <= 5
    ensures ReadFrom(bytes, pos, i, r)
            == Failed(if i + n == 5 && bytes[pos + n] < 8 then UndefinedShift else InvalidCode)
    decreases n
  {
    hide Shift;
    if n > 0 && i < 5 {
      ReadLong(bytes, pos + 1, n - 1, i + 1, (r + bytes[pos] % 128 * Shift(i)) % WORD);
    }
  }

  /** Reading is right exactly if four bytes come before the last at most, and the fifth fits into the word. */
  lemma ReadExact(bytes: seq<nat>, pos: nat, n: nat)
    requires CodeAt(bytes, pos, n)
    ensures ReadFrom(bytes, pos, 0, 0) == Got(Spelled(bytes, pos), pos + n + 1)
            <==> n <= 4 && (n == 4 ==> bytes[pos + 4] < 16)
    ensures ReadFrom(bytes, pos, 0, 0) == Failed(UndefinedShift) <==> n == 5 && bytes[pos + 5] < 8
  {
    assert Shift(0) == 1;
    if n <= 4 {
      ReadSpelled(bytes, pos, n, 0, 0);
      var low := TopByte(bytes, pos, n);
      SpelledFits(low, bytes[pos + n], n);
    } else {
      ReadLong(bytes, pos, n, 0, 0);
    }
  }

  lemma SpelledFits(low: nat, top: nat, n: nat)
    requires n <= 4 && low < Shift(n) && top < 128
    ensures low + top * Shift(n) < WORD <==> n < 4 || top < 16
  {
    assert Shift(1) == 128 && Shift(2) == 128 * Shift(1) && Shift(3) == 128 * Shift(2) && Shift(4) == 128 * Shift(3);
  }

  /** The smallest failures: the code of 2 to the power of 32 is read as 0, and six bytes may be shifted out of the word. */
  lemma ReadMisleads()
    ensures Spelled([128, 128, 128, 128, 16], 0) == WORD
    ensures ReadFrom([128, 128, 128, 128, 16], 0, 0, 0) == Got(0, 5)
    ensures ReadFrom([128, 128, 128, 128, 128, 0], 0, 0, 0) == Failed(UndefinedShift)
  {
    hide ReadFrom, Shift, Spelled;
    var one, two := [128, 128, 128, 128, 16], [128, 128, 128, 128, 128, 0];
    OverlongSpells(one);
    assert CodeAt(one, 0, 4);
    ReadSpelled(one, 0, 4, 0, 0);
    assert Shift(0) == 1 by { ShiftZero(); }
    assert CodeAt(two, 0, 5);
    ReadLong(two, 0, 5, 0, 0);
  }

  lemma ShiftZero()
    ensures Shift(0) == 1
  {}

  lemma OverlongSpells(bytes: seq<nat>)
    requires bytes == [128, 128, 128, 128, 16]
    ensures Spelled(bytes, 0) == WORD
  {
    assert Spelled(bytes, 4) == 16;
    assert Spelled(bytes, 3) == 0x800;
    assert Spelled(bytes, 2) == 0x4_0000;
    assert Spelled(bytes, 1) == 0x200_0000;
  }

  // ------------------------------------------------------- the section of gates

  /** Gates in the order of `aiger_write_binary`: consecutive left-hand sides, then both differences. */
  ghost predicate Writable(gs: seq<And>, lhs: nat) {
    forall i :: 0 <= i < |gs| ==> gs[i].lhs == lhs + 2 * i && gs[i].lhs >= gs[i].rhs0 >= gs[i].rhs1
  }

  function AndBytes(gs: seq<And>): seq<nat>
    requires forall i :: 0 <= i < |gs| ==> gs[i].lhs >= gs[i].rhs0 >= gs[i].rhs1
  {
    if gs == [] then []
    else DeltaBytes(gs[0].lhs - gs[0].rhs0) + DeltaBytes(gs[0].rhs0 - gs[0].rhs1) + AndBytes(gs[1..])
  }

  lemma NextBytes(gs: seq<And>, i: nat)
    requires i < |gs| && forall k :: 0 <= k < |gs| ==> gs[k].lhs >= gs[k].rhs0 >= gs[k].rhs1
    ensures AndBytes(gs[i..])
            == DeltaBytes(gs[i].lhs - gs[i].rhs0) + DeltaBytes(gs[i].rhs0 - gs[i].rhs1) + AndBytes(gs[i + 1..])
  {
    assert gs[i..][0] == gs[i] && gs[i..][1..] == gs[i + 1..];
  }

  lemma NoBytes(gs: seq<And>)
    ensures AndBytes(gs[|gs|..]) == []
  {}

  method WriteAnds(buffer: seq<nat>, gs: seq<And>, maxLeaf: nat) returns (res: seq<nat>)
    requires Writable(gs, maxLeaf + 2)
    ensures res == buffer + AndBytes(gs)
  {
    hide DeltaBytes, AndBytes;
    res := buffer;
    var lhs := maxLeaf + 2;
    assert gs[0..] == gs;
    for i := 0 to |gs|
      invariant lhs == maxLeaf + 2 + 2 * i && res + AndBytes(gs[i..]) == buffer + AndBytes(gs)
    {
      var g := gs[i];
      NextBytes(gs, i);
      res := WriteDelta(res, lhs - g.rhs0);
      res := WriteDelta(res, g.rhs0 - g.rhs1);
      lhs := lhs + 2;
    }
    NoBytes(gs);
  }

  lemma {:induction false} ReadStays(bytes: seq<nat>, pos: nat, i: nat, r: nat)
    requires pos <= |bytes| && i <= 5
    ensures ReadFrom(bytes, pos, i, r).Got? ==> pos < ReadFrom(bytes, pos, i, r).next <= |bytes|
    decreases |bytes| - pos
  {
    if pos < |bytes| && bytes[pos] >= 128 && i < 5 {
      ReadStays(bytes, pos + 1, i + 1, (r + bytes[pos] % 128 * Shift(i)) % WORD);
    }
  }

  function Prepended(gs: seq<And>, r: ReadResult<seq<And>>): ReadResult<seq<And>> {
    match r
    case Failed(e) => r
    case Got(hs, p) => Got(gs + hs, p)
  }

  lemma PrependedTwice(gs: seq<And>, g: And, r: ReadResult<seq<And>>)
    ensures Prepended(gs, Prepended([g], r)) == Prepended(gs + [g], r)
  {
    if r.Got? { assert gs + ([g] + r.value) == gs + [g] + r.value; }
  }

  /** One gate. */
  function ReadOne(bytes: seq<nat>, pos: nat, lhs: nat): ReadResult<And>
    requires pos <= |bytes|
  {
    match ReadFrom(bytes, pos, 0, 0)
    case Failed(e) => Failed(e)
    case Got(d0, p0) =>
      if d0 > lhs then Failed(InvalidDelta)
      else
        ReadStays(bytes, pos, 0, 0);
        match ReadFrom(bytes, p0, 0, 0)
        case Failed(e) => Failed(e)
        case Got(d1, p1) => if d1 > lhs - d0 then Failed(InvalidDelta) else Got(And(lhs, lhs - d0, lhs - d0 - d1), p1)
  }

  lemma ReadOneStays(bytes: seq<nat>, pos: nat, lhs: nat)
    requires pos <= |bytes|
    ensures ReadOne(bytes, pos, lhs).Got? ==> ReadOne(bytes, pos, lhs).next <= |bytes|
  {
    ReadStays(bytes, pos, 0, 0);
    if ReadFrom(bytes, pos, 0, 0).Got? { ReadStays(bytes, ReadFrom(bytes, pos, 0, 0).next, 0, 0); }
  }

  /** n gates, the first with left-hand side lhs. */
  function ReadAndsFrom(bytes: seq<nat>, pos: nat, n: nat, lhs: nat): ReadResult<seq<And>>
    requires pos <= |bytes|
    decreases n
  {
    if n == 0 then Got([], pos)
    else
      ReadOneStays(bytes, pos, lhs);
      match ReadOne(bytes, pos, lhs)
      case Failed(e) => Failed(e)
      case Got(g, p) => Prepended([g], ReadAndsFrom(bytes, p, n - 1, lhs + 2))
  }

  method ReadAnds(bytes: seq<nat>, start: nat, n: nat, maxLeaf: nat) returns (res: ReadResult<seq<And>>)
    requires start <= |bytes|
    ensures res == ReadAndsFrom(bytes, start, n, maxLeaf + 2)
  {
    hide ReadFrom;
    var lhs: nat, pos: nat, gs := maxLeaf, start, [];
    EmptyPrefix(ReadAndsFrom(bytes, start, n, maxLeaf + 2));
    for i := 0 to n
      invariant lhs == maxLeaf + 2 * i && pos <= |bytes|
      invariant ReadAndsFrom(bytes, start, n, maxLeaf + 2) == Prepended(gs, ReadAndsFrom(bytes, pos, n - i, lhs + 2))
    {
      lhs := lhs + 2;
      ReadOneStays(bytes, pos, lhs);
      ReadStays(bytes, pos, 0, 0);
      var delta := ReadDelta(bytes, pos);
      if delta.Failed? { return Failed(delta.error); }
      if delta.value > lhs { return Failed(InvalidDelta); }
      var rhs0: nat := lhs - delta.value;
      ghost var before := pos;
      pos := delta.next;
      delta := ReadDelta(bytes, pos);
      if delta.Failed? { return Failed(delta.error); }
      if delta.value > rhs0 { return Failed(InvalidDelta); }
      var rhs1: nat := rhs0 - delta.value;
      pos := delta.next;
      PrependedTwice(gs, And(lhs, rhs0, rhs1), ReadAndsFrom(bytes, pos, n - i - 1, lhs + 2));
      gs := gs + [And(lhs, rhs0, rhs1)];
    }
    assert gs + [] == gs;
    res := Got(gs, pos);
  }

  lemma EmptyPrefix(r: ReadResult<seq<And>>)
    ensures Prepended([], r) == r
  {
    if r.Got? { assert [] + r.value == r.value; }
  }

  /** Reading the section written for gates gives the same gates and ends where the section ends. */
  lemma {:induction false} AndsRoundTrip(before: seq<nat>, gs: seq<And>, lhs: nat, after: seq<nat>)
    requires Writable(gs, lhs) && lhs + 2 * |gs| <= WORD
    ensures ReadAndsFrom(before + AndBytes(gs) + after, |before|, |gs|, lhs) == Got(gs, |before| + |AndBytes(gs)|)
    decreases |gs|
  {
    hide ReadOne, DeltaBytes, ReadFrom;
    if gs == [] {
      assert before + AndBytes(gs) + after == before + after;
    } else {
      var g, rest := gs[0], gs[1..];
      var mid := before + DeltaBytes(g.lhs - g.rhs0) + DeltaBytes(g.rhs0 - g.rhs1);
      OneRoundTrip(before, g, AndBytes(rest) + after);
      assert before + AndBytes(gs) + after == mid + (AndBytes(rest) + after) == mid + AndBytes(rest) + after;
      AndsRoundTrip(mid, rest, lhs + 2, after);
      ReadOneStays(mid + AndBytes(rest) + after, |before|, lhs);
      assert [g] + rest == gs;
    }
  }

  lemma OneRoundTrip(before: seq<nat>, g: And, after: seq<nat>)
    requires g.lhs >= g.rhs0 >= g.rhs1 && g.lhs < WORD
    ensures var mid := before + DeltaBytes(g.lhs - g.rhs0) + DeltaBytes(g.rhs0 - g.rhs1);
            ReadOne(mid + after, |before|, g.lhs) == Got(g, |mid|)
  {
    hide DeltaBytes, ReadFrom;
    var b0, b1 := DeltaBytes(g.lhs - g.rhs0), DeltaBytes(g.rhs0 - g.rhs1);
    var bytes := before + b0 + b1 + after;
    assert bytes == before + b0 + (b1 + after);
    DeltaRoundTrip(before, g.lhs - g.rhs0, b1 + after);
    DeltaRoundTrip(before + b0, g.rhs0 - g.rhs1, after);
  }

  /** The gates of every re-encoded graph survive being written and read. */
  lemma ReencodedRoundTrip(a: Graph, before: seq<nat>, after: seq<nat>)
    requires Typed(a) && Reencoded(a) && 2 * a.maxvar + 1 < WORD
    ensures Writable(a.ands, Leaves(a) + 2)
    ensures ReadAndsFrom(before + AndBytes(a.ands) + after, |before|, |a.ands|, Leaves(a) + 2)
            == Got(a.ands, |before| + |AndBytes(a.ands)|)
  {
    LastInRange(a);
    AndsRoundTrip(before, a.ands, Leaves(a) + 2, after);
  }

  lemma LastInRange(a: Graph)
    requires Typed(a) && Reencoded(a)
    ensures Leaves(a) + 2 * |a.ands| <= 2 * a.maxvar
  {
    var n := |a.ands|;
    if n > 0 {
      assert Fresh(a, a.ands[n - 1].lhs, Gate(n - 1));
    } else if |a.latches| > 0 {
      assert Fresh(a, a.latches[|a.latches| - 1].lit, Latched(|a.latches| - 1));
    } else if |a.inputs| > 0 {
      assert Fresh(a, a.inputs[|a.inputs| - 1], Input(|a.inputs| - 1));
    }
  }
}
