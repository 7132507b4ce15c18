/** 32-bit words of the simulated machine, their bits and their little-endian bytes.
    An `unsigned int` is a natural number below 2^32; a C `int` is an integer that is
    stored modulo 2^32. */
module Words {

  const TWO_31: int := 0x8000_0000
  const TWO_32: int := 0x1_0000_0000

  type byte = b: int | 0 <= b < 256
  type uint32 = w: int | 0 <= w < 0x1_0000_0000
  type int32 = n: int | -0x8000_0000 <= n < 0x8000_0000

  function Pow2(k: nat): (p: nat)
    ensures p > 0
  {
    if k == 0 then 1 else 2 * Pow2(k - 1)
  }

  lemma Pow2Of32()
    ensures Pow2(32) == TWO_32 && Pow2(31) == TWO_31
  {
    assert Pow2(8) == 256;
    assert Pow2(16) == 65536;
    assert Pow2(24) == 16777216;
  }

  // ---------------------------------------------------------------- integers

  /** The bit pattern of an `int`. */
  function ToUnsigned(n: int): (w: uint32) {
    n % TWO_32
  }

  /** The `int` a bit pattern denotes. */
  function ToSigned(w: uint32): (n: int32) {
    if w < TWO_31 then w else w - TWO_32
  }

  lemma SignedRoundTrip(n: int32)
    ensures ToSigned(ToUnsigned(n)) == n
  {
    if n < 0 {
      assert (n + TWO_32) % TWO_32 == n + TWO_32;
    }
  }

  lemma PatternRoundTrip(w: uint32)
    ensures ToUnsigned(ToSigned(w)) == w
  {
  }

  // ---------------------------------------------------------------- bits

  /** `w & (1 << k)`, as a truth value. */
  predicate TestBit(w: nat, k: nat) {
    (w / Pow2(k)) % 2 == 1
  }

  /** `w | (1 << k)`. */
  function SetBit(w: nat, k: nat): (r: nat) {
    if TestBit(w, k) then w else w + Pow2(k)
  }

  /** `w & ~(1 << k)`. */
  function ClearBit(w: nat, k: nat): (r: int) {
    if TestBit(w, k) then w - Pow2(k) else w
  }

  lemma TestBitStep(w: nat, k: nat)
    requires k > 0
    ensures TestBit(w, k) == TestBit(w / 2, k - 1)
  {
    var p := Pow2(k - 1);
    DivDiv(w, p);
  }

  lemma DivDiv(w: nat, p: nat)
    requires p > 0
    ensures w / (2 * p) == (w / 2) / p
  {
    var q, r := (w / 2) / p, (w / 2) % p;
    assert w / 2 == q * p + r;
    var rest := 2 * r + w % 2;
    assert w == q * (2 * p) + rest;
    assert rest < 2 * p;
    DivUnique(w, 2 * p, q, rest);
  }

  lemma MulAtLeast(x: int, d: int)
    requires x >= 1 && d > 0
    ensures x * d >= d
  {
  }

  lemma DivUnique(w: int, d: int, q: int, r: int)
    requires d > 0 && w == q * d + r && 0 <= r < d
    ensures w / d == q && w % d == r
  {
    var q', r' := w / d, w % d;
    assert w == q' * d + r';
    assert (q - q') * d == r' - r by {
      assert (q - q') * d == q * d - q' * d;
    }
    if q > q' {
      MulAtLeast(q - q', d);
    } else if q < q' {
      assert (q' - q) * d == r - r' by {
        assert (q' - q) * d == q' * d - q * d;
      }
      MulAtLeast(q' - q, d);
    }
  }

  lemma LowestBit(w: nat)
    ensures TestBit(w, 0) <==> w % 2 == 1
  {
  }

  lemma LowestOps(w: nat)
    ensures SetBit(w, 0) / 2 == w / 2 && SetBit(w, 0) % 2 == 1
    ensures ClearBit(w, 0) >= 0 && ClearBit(w, 0) / 2 == w / 2 && ClearBit(w, 0) % 2 == 0
  {
  }

  /** Bit k of a word is bit k - 1 of its half. */
  lemma HalvedOps(w: nat, k: nat)
    requires k > 0
    ensures SetBit(w, k) / 2 == SetBit(w / 2, k - 1) && SetBit(w, k) % 2 == w % 2
    ensures ClearBit(w, k) / 2 == ClearBit(w / 2, k - 1) && ClearBit(w, k) % 2 == w % 2
    ensures ClearBit(w / 2, k - 1) >= 0 ==> ClearBit(w, k) >= 0
  {
    TestBitStep(w, k);
    var p := Pow2(k - 1);
    assert Pow2(k) == 2 * p;
    hide Pow2, TestBit;
  }

  /** A 32-bit word stays one under `|=` and `&= ~`, and exactly bit `k` changes. */
  lemma {:induction false} BitOps(w: nat, k: nat, j: nat)
    ensures ClearBit(w, k) >= 0
    ensures TestBit(SetBit(w, k), j) == (j == k || TestBit(w, j))
    ensures TestBit(ClearBit(w, k), j) == (j != k && TestBit(w, j))
    decreases k
  {
    hide SetBit, ClearBit, TestBit;
    if k == 0 {
      LowestOps(w);
    } else {
      BitOps(w / 2, k - 1, if j == 0 then 0 else j - 1);
      HalvedOps(w, k);
    }
    if j > 0 {
      TestBitStep(w, j);
      TestBitStep(SetBit(w, k), j);
      TestBitStep(ClearBit(w, k), j);
    } else {
      LowestBit(w);
      LowestBit(SetBit(w, k));
      LowestBit(ClearBit(w, k));
    }
  }

  lemma {:induction false} SetBitInRange(w: nat, k: nat, n: nat)
    requires k < n && w < Pow2(n)
    ensures SetBit(w, k) < Pow2(n)
    decreases k
  {
    assert Pow2(n) == 2 * Pow2(n - 1);
    if k == 0 {
      assert Pow2(0) == 1;
    } else {
      TestBitStep(w, k);
      SetBitInRange(w / 2, k - 1, n - 1);
      assert SetBit(w, k) == 2 * SetBit(w / 2, k - 1) + w % 2;
    }
  }

  // ---------------------------------------------------------------- bytes

  /** The four bytes of a word in memory, least significant first. */
  function WordBytes(w: uint32): (bs: seq<byte>)
    ensures |bs| == 4
  {
    [w % 0x100, w / 0x100 % 0x100, w / 0x1_0000 % 0x100, w / 0x100_0000]
  }

  function BytesWord(b0: byte, b1: byte, b2: byte, b3: byte): (w: uint32) {
    b0 + 0x100 * b1 + 0x1_0000 * b2 + 0x100_0000 * b3
  }

  /** An array of words viewed as an array of bytes, as by a `(char *)` cast. */
  function EncodeWords(ws: seq<uint32>): (bs: seq<byte>)
    ensures |bs| == 4 * |ws|
  {
    seq(4 * |ws|, i requires 0 <= i < 4 * |ws| => WordBytes(ws[i / 4])[i % 4])
  }

  /** The first `n` words found in a byte array. */
  function DecodeWords(bs: seq<byte>, n: nat): (ws: seq<uint32>)
    requires 4 * n <= |bs|
    ensures |ws| == n
  {
    seq(n, i requires 0 <= i < n => BytesWord(bs[4 * i], bs[4 * i + 1], bs[4 * i + 2], bs[4 * i + 3]))
  }

  lemma WordRoundTrip(w: uint32)
    ensures var bs := WordBytes(w); BytesWord(bs[0], bs[1], bs[2], bs[3]) == w
  {
    var q := w / 0x100;
    assert w / 0x1_0000 == q / 0x100;
    assert w / 0x100_0000 == q / 0x100 / 0x100;
  }

  lemma EncodedByte(ws: seq<uint32>, i: nat, j: nat)
    requires i < |ws| && j < 4
    ensures EncodeWords(ws)[4 * i + j] == WordBytes(ws[i])[j]
  {
    assert (4 * i + j) / 4 == i && (4 * i + j) % 4 == j;
  }

  lemma DecodedWord(ws: seq<uint32>, rest: seq<byte>, i: nat)
    requires i < |ws|
    ensures DecodeWords(EncodeWords(ws) + rest, |ws|)[i] == ws[i]
  {
    hide WordBytes, BytesWord;
    EncodedByte(ws, i, 0);
    EncodedByte(ws, i, 1);
    EncodedByte(ws, i, 2);
    EncodedByte(ws, i, 3);
    WordRoundTrip(ws[i]);
  }

  /** Reading back the bytes of an array of words yields the words, whatever follows them. */
  lemma WordsRoundTrip(ws: seq<uint32>, rest: seq<byte>)
    ensures DecodeWords(EncodeWords(ws) + rest, |ws|) == ws
  {
    hide *;
    forall i | 0 <= i < |ws|
      ensures DecodeWords(EncodeWords(ws) + rest, |ws|)[i] == ws[i]
    {
      DecodedWord(ws, rest, i);
    }
  }
}
