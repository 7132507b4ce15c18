/** lib/bitmap.cc: an array of bits kept in 32-bit words, and its meaning as a sequence of truth values. */
module Bitmaps {
  import opened Words

  const BITS_IN_WORD := 32

  function DivRoundUp(n: nat, s: nat): (q: nat)
    requires s > 0
    ensures (q - 1) * s < n <= q * s
  {
    n / s + (if n % s > 0 then 1 else 0)
  }

  /** The first `n` bits of an array of words. */
  function BitsOf(words: seq<uint32>, n: nat): (bits: seq<bool>)
    requires n <= BITS_IN_WORD * |words|
    ensures |bits| == n
  {
    seq(n, i requires 0 <= i < n => TestBit(words[i / BITS_IN_WORD], i % BITS_IN_WORD))
  }

  /** The number of clear bits. */
  function CountClear(bits: seq<bool>): (c: nat)
    ensures c <= |bits|
  {
    if bits == [] then 0
    else CountClear(bits[..|bits| - 1]) + (if bits[|bits| - 1] then 0 else 1)
  }

  /** The position of the first clear bit, or -1. */
  function FirstClear(bits: seq<bool>): (k: int)
    ensures -1 <= k < |bits|
    ensures k >= 0 ==> !bits[k] && forall j :: 0 <= j < k ==> bits[j]
    ensures k == -1 ==> forall j :: 0 <= j < |bits| ==> bits[j]
  {
    FirstClearFrom(bits, 0)
  }

  function FirstClearFrom(bits: seq<bool>, i: nat): (k: int)
    requires i <= |bits|
    requires forall j :: 0 <= j < i ==> bits[j]
    ensures -1 <= k < |bits|
    ensures k >= 0 ==> !bits[k] && forall j :: 0 <= j < k ==> bits[j]
    ensures k == -1 ==> forall j :: 0 <= j < |bits| ==> bits[j]
    decreases |bits| - i
  {
    if i == |bits| then -1
    else if !bits[i] then i
    else FirstClearFrom(bits, i + 1)
  }

  lemma {:induction false} AllClear(bits: seq<bool>)
    requires forall i :: 0 <= i < |bits| ==> !bits[i]
    ensures CountClear(bits) == |bits|
  {
    if bits != [] {
      AllClear(bits[..|bits| - 1]);
    }
  }

  lemma {:induction false} CountClearUpdate(bits: seq<bool>, k: nat, b: bool)
    requires k < |bits|
    ensures CountClear(bits[k := b]) == CountClear(bits) + (if bits[k] then 1 else 0) - (if b then 1 else 0)
  {
    var n := |bits| - 1;
    if k == n {
      assert bits[k := b][..n] == bits[..n];
    } else {
      assert bits[k := b][..n] == bits[..n][k := b];
      CountClearUpdate(bits[..n], k, b);
    }
  }

  /** There is a first clear bit exactly when some bit is clear. */
  lemma {:induction false} CountClearPositive(bits: seq<bool>)
    ensures CountClear(bits) > 0 <==> exists k :: 0 <= k < |bits| && !bits[k]
    ensures CountClear(bits) > 0 <==> FirstClear(bits) >= 0
  {
    if bits != [] {
      var n := |bits| - 1;
      CountClearPositive(bits[..n]);
      if k :| 0 <= k < |bits| && !bits[k] {
        assert k < n ==> !bits[..n][k];
      }
      if k :| 0 <= k < n && !bits[..n][k] {
        assert !bits[k];
      }
    }
  }

  lemma WordUpdate(words: seq<uint32>, n: nat, k: nat)
    requires n <= BITS_IN_WORD * |words| && k < n
    ensures 0 <= SetBit(words[k / 32], k % 32) < TWO_32
    ensures 0 <= ClearBit(words[k / 32], k % 32) < TWO_32
    ensures BitsOf(words[k / 32 := SetBit(words[k / 32], k % 32)], n) == BitsOf(words, n)[k := true]
    ensures BitsOf(words[k / 32 := ClearBit(words[k / 32], k % 32)], n) == BitsOf(words, n)[k := false]
  {
    var w := words[k / 32];
    Pow2Of32();
    SetBitInRange(w, k % 32, 32);
    BitOps(w, k % 32, 0);
    var marked := BitsOf(words[k / 32 := SetBit(w, k % 32)], n);
    var clear := BitsOf(words[k / 32 := ClearBit(w, k % 32)], n);
    forall i | 0 <= i < n
      ensures marked[i] == BitsOf(words, n)[k := true][i]
      ensures clear[i] == BitsOf(words, n)[k := false][i]
    {
      BitOps(w, k % 32, i % 32);
    }
  }

  class Bitmap {
    const numBits: nat
    const words: array<uint32>

    ghost predicate Valid()
      reads this
    {
      numBits > 0 && words.Length == DivRoundUp(numBits, BITS_IN_WORD)
    }

    ghost function Bits(): (bits: seq<bool>)
      requires Valid()
      reads this, words
      ensures |bits| == numBits
    {
      BitsOf(words[..], numBits)
    }

    constructor (numItems: nat)
      requires numItems > 0
      ensures Valid() && fresh(words) && numBits == numItems
      ensures forall i :: 0 <= i < numItems ==> !Bits()[i]
    {
      numBits := numItems;
      words := new uint32[DivRoundUp(numItems, BITS_IN_WORD)](i => 0);
      new;
      for i := 0 to numItems
        invariant forall j :: 0 <= j < i ==> !Bits()[j]
      {
        Clear(i);
      }
    }

    method Mark(which: nat)
      requires Valid() && which < numBits
      modifies words
      ensures Bits() == old(Bits())[which := true]
    {
      WordUpdate(words[..], numBits, which);
      ghost var was := words[..];
      words[which / BITS_IN_WORD] := SetBit(words[which / BITS_IN_WORD], which % BITS_IN_WORD);
      assert words[..] == was[which / 32 := SetBit(was[which / 32], which % 32)];
    }

    method Clear(which: nat)
      requires Valid() && which < numBits
      modifies words
      ensures Bits() == old(Bits())[which := false]
    {
      WordUpdate(words[..], numBits, which);
      ghost var was := words[..];
      words[which / BITS_IN_WORD] := ClearBit(words[which / BITS_IN_WORD], which % BITS_IN_WORD);
      assert words[..] == was[which / 32 := ClearBit(was[which / 32], which % 32)];
    }

    method Test(which: nat) returns (b: bool)
      requires Valid() && which < numBits
      ensures b == Bits()[which]
    {
      b := TestBit(words[which / BITS_IN_WORD], which % BITS_IN_WORD);
    }

    /** Finds and marks the first clear bit; -1 exactly when every bit is set. */
    method FindAndSet() returns (k: int)
      requires Valid()
      modifies words
      ensures k == FirstClear(old(Bits()))
      ensures Bits() == if k == -1 then old(Bits()) else old(Bits())[k := true]
    {
      for i := 0 to numBits
        invariant Bits() == old(Bits())
        invariant forall j :: 0 <= j < i ==> Bits()[j]
      {
        var b := Test(i);
        if !b {
          Mark(i);
          return i;
        }
      }
      return -1;
    }

    method NumClear() returns (count: nat)
      requires Valid()
      ensures count == CountClear(Bits())
    {
      count := 0;
      for i := 0 to numBits
        invariant count == CountClear(Bits()[..i])
      {
        var b := Test(i);
        assert Bits()[..i + 1][..i] == Bits()[..i];
        if !b {
          count := count + 1;
        }
      }
      assert Bits()[..numBits] == Bits();
    }
  }
}
