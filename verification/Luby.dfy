/** The restart sequence: blocks that repeat the block before them twice, then go one step further. */
module Luby {
  import opened CdclRank

  /** Exponents of the first 2^(k + 1) - 1 searches. */
  function Block(k: nat): (r: seq<nat>)
    ensures |r| >= 1
  {
    if k == 0 then [0] else Block(k - 1) + Block(k - 1) + [k]
  }

  lemma {:induction false} BlockSize(k: nat)
    ensures |Block(k)| > k && (k > 0 ==> |Block(k)| == 2 * |Block(k - 1)| + 1)
  {
    if k > 0 { BlockSize(k - 1); }
  }

  lemma {:induction false} BlockPrefix(j: nat, k: nat)
    requires j <= k
    ensures Block(j) <= Block(k)
    decreases k
  {
    if j < k { BlockPrefix(j, k - 1); }
  }

  /** A position that is not the last of a block is one of either copy. */
  lemma BlockCopies(k: nat, x: nat)
    requires k > 0 && x < |Block(k)| - 1
    ensures Block(k)[x] == Block(k - 1)[x % |Block(k - 1)|]
  {
    var b := Block(k - 1);
    assert Block(k) == b + b + [k];
    hide Block;
    TwiceAt(b, k, x);
  }

  lemma TwiceAt(b: seq<nat>, last: nat, x: nat)
    requires b != [] && x < 2 * |b|
    ensures (b + b + [last])[x] == b[x % |b|]
  {
    var n := |b|;
    if x >= n { Remainder(x, n); } else { assert x % n == x; }
  }

  lemma Remainder(x: nat, n: nat)
    requires 0 < n <= x < 2 * n
    ensures x % n == x - n
  {}

  /** The x-th number: y to the power of the x-th exponent, whatever block it is read from. */
  method Luby(y: nat, x0: nat) returns (r: nat)
    ensures forall k :: 0 <= k && x0 < |Block(k)| ==> r == Pow(y, Block(k)[x0])
  {
    var x: nat, size: nat, sequence: nat := x0, 1, 0;
    while size < x + 1
      invariant size == |Block(sequence)| && sequence <= x0 + 1
      decreases x + 1 - size
    {
      sequence := sequence + 1;
      BlockSize(sequence);
      BlockSize(sequence - 1);
      size := 2 * size + 1;
    }
    ghost var top := sequence;
    while size - 1 != x
      invariant size == |Block(sequence)| && x < size && Block(sequence)[x] == Block(top)[x0] && x0 < |Block(top)|
      decreases size
    {
      BlockSize(0);
      assert sequence > 0;
      BlockSize(sequence);
      BlockCopies(sequence, x);
      size := (size - 1) / 2;
      sequence := sequence - 1;
      x := x % size;
    }
    BlockEnd(sequence);
    r := Pow(y, sequence);
    forall k | 0 <= k && x0 < |Block(k)| ensures r == Pow(y, Block(k)[x0]) {
      if k <= top { BlockPrefix(k, top); } else { BlockPrefix(top, k); }
    }
  }

  lemma BlockEnd(k: nat)
    ensures Block(k)[|Block(k)| - 1] == k
  {}

  /** The least number of conflicts of search n under this policy. */
  function LubyBudget(y: nat, factor: nat): nat -> nat {
    (n: nat) => SequenceNumber(y, n) * factor
  }

  function SequenceNumber(y: nat, n: nat): nat
  {
    if n < |Block(n)| then Pow(y, Block(n)[n]) else 0
  }

  lemma {:induction false} PowLarge(y: nat, k: nat)
    requires y >= 2
    ensures Pow(y, k) > k
  {
    if k > 0 {
      PowLarge(y, k - 1);
      assert y * Pow(y, k - 1) >= 2 * Pow(y, k - 1);
    }
  }

  /** The budgets grow beyond every number, and it is known when. */
  lemma LubyReaches(y: nat, factor: nat, target: nat)
    requires y >= 2 && factor >= 1
    ensures LubyBudget(y, factor)(|Block(target)| - 1) >= target
  {
    var n := |Block(target)| - 1;
    BlockSize(target);
    BlockSize(n);
    BlockPrefix(target, n);
    BlockEnd(target);
    hide Block, Pow;
    assert Block(n)[n] == target;
    PowLarge(y, target);
    MulMonotone(1, factor, Pow(y, target));
    assert LubyBudget(y, factor)(n) == Pow(y, target) * factor;
  }
}
