/** Machine words as big-endian sequences of bits: index 0 is the most significant bit.
    Shifts, masks and conversions are those of unsigned words of a fixed width; the value of a
    word is a natural number, and a number that is too large for a word loses its high bits. */
module Words {

  type Word = seq<bool>

  type Byte = w: seq<bool> | |w| == 8 witness [false, false, false, false, false, false, false, false]

  function Pow2(n: nat): (p: nat)
    ensures p > 0
  {
    if n == 0 then 1 else 2 * Pow2(n - 1)
  }

  function Zeros(n: nat): (w: Word)
    ensures |w| == n && forall i :: 0 <= i < n ==> !w[i]
  {
    seq(n, _ => false)
  }

  function Ones(n: nat): (w: Word)
    ensures |w| == n && forall i :: 0 <= i < n ==> w[i]
  {
    seq(n, _ => true)
  }

  /** A left shift: the high bits fall off, zeros come in. */
  function Shl(w: Word, k: nat): (r: Word)
    requires k <= |w|
    ensures |r| == |w|
  {
    w[k..] + Zeros(k)
  }

  /** A logical right shift. */
  function Shr(w: Word, k: nat): (r: Word)
    requires k <= |w|
    ensures |r| == |w|
  {
    Zeros(k) + w[..|w| - k]
  }

  function And(a: Word, b: Word): (r: Word)
    requires |a| == |b|
    ensures |r| == |a| && forall i :: 0 <= i < |a| ==> r[i] == (a[i] && b[i])
  {
    seq(|a|, i requires 0 <= i < |a| => a[i] && b[i])
  }

  function Or(a: Word, b: Word): (r: Word)
    requires |a| == |b|
    ensures |r| == |a| && forall i :: 0 <= i < |a| ==> r[i] == (a[i] || b[i])
  {
    seq(|a|, i requires 0 <= i < |a| => a[i] || b[i])
  }

  function Not(a: Word): (r: Word)
    ensures |r| == |a| && forall i :: 0 <= i < |a| ==> r[i] == !a[i]
  {
    seq(|a|, i requires 0 <= i < |a| => !a[i])
  }

  function Bit(b: bool): nat {
    if b then 1 else 0
  }

  /** The unsigned value of a word. */
  function ToNat(w: Word): nat {
    if w == [] then 0 else 2 * ToNat(w[..|w| - 1]) + Bit(w[|w| - 1])
  }

  /** The low n bits of x. */
  function ToWord(x: nat, n: nat): (w: Word)
    ensures |w| == n
  {
    if n == 0 then [] else ToWord(x / 2, n - 1) + [x % 2 == 1]
  }

  /** The number of bits in the binary representation of x. */
  function BitLength(x: nat): nat {
    if x == 0 then 0 else 1 + BitLength(x / 2)
  }

  lemma {:induction false} Pow2Monotone(a: nat, b: nat)
    requires a <= b
    ensures Pow2(a) <= Pow2(b)
    decreases b
  {
    if a < b {
      Pow2Monotone(a, b - 1);
    }
  }

  lemma {:induction false} Pow2Add(a: nat, b: nat)
    ensures Pow2(a + b) == Pow2(a) * Pow2(b)
  {
    if a > 0 {
      Pow2Add(a - 1, b);
      assert 2 * (Pow2(a - 1) * Pow2(b)) == Pow2(a) * Pow2(b);
    }
  }

  lemma Pow2Values()
    ensures Pow2(8) == 0x100 && Pow2(31) == 0x8000_0000 && Pow2(32) == 0x1_0000_0000
  {
    assert Pow2(4) == 16;
    Pow2Add(4, 4);
    Pow2Add(8, 8);
    Pow2Add(16, 16);
    assert Pow2(32) == 2 * Pow2(31);
  }

  lemma {:induction false} BitLengthBounds(x: nat)
    requires x > 0
    ensures BitLength(x) > 0 && Pow2(BitLength(x) - 1) <= x < Pow2(BitLength(x))
  {
    if x > 1 {
      BitLengthBounds(x / 2);
    }
  }

  lemma BitLengthUnique(x: nat, k: nat)
    requires k > 0 && Pow2(k - 1) <= x < Pow2(k)
    ensures BitLength(x) == k
  {
    BitLengthBounds(x);
    if BitLength(x) < k {
      Pow2Monotone(BitLength(x), k - 1);
    } else if BitLength(x) > k {
      Pow2Monotone(k, BitLength(x) - 1);
    }
  }

  lemma {:induction false} ToNatBound(w: Word)
    ensures ToNat(w) < Pow2(|w|)
  {
    if w != [] {
      ToNatBound(w[..|w| - 1]);
    }
  }

  lemma {:induction false} ToNatConcat(a: Word, b: Word)
    ensures ToNat(a + b) == ToNat(a) * Pow2(|b|) + ToNat(b)
  {
    if b == [] {
      assert a + b == a;
    } else {
      var b' := b[..|b| - 1];
      assert (a + b)[..|a + b| - 1] == a + b';
      ToNatConcat(a, b');
      assert ToNat(a) * Pow2(|b|) == 2 * (ToNat(a) * Pow2(|b'|));
    }
  }

  lemma {:induction false} ToNatZeros(n: nat)
    ensures ToNat(Zeros(n)) == 0
  {
    if n > 0 {
      assert Zeros(n)[..n - 1] == Zeros(n - 1);
      ToNatZeros(n - 1);
    }
  }

  lemma ToNatLeadingZeros(n: nat, w: Word)
    ensures ToNat(Zeros(n) + w) == ToNat(w)
  {
    ToNatConcat(Zeros(n), w);
    ToNatZeros(n);
  }

  lemma ToNatTopBit(w: Word)
    requires w != [] && w[0]
    ensures Pow2(|w| - 1) <= ToNat(w)
  {
    assert w == [true] + w[1..];
    ToNatConcat([true], w[1..]);
    assert [true][..0] == [];
    assert ToNat([true]) == 1;
  }

  /** Reading back the value of a word loses nothing. */
  lemma {:induction false} WordOfNat(w: Word)
    ensures ToWord(ToNat(w), |w|) == w
  {
    if w != [] {
      WordOfNat(w[..|w| - 1]);
    }
  }

  /** A word is wide enough for every value below its power of two. */
  lemma {:induction false} NatOfWord(x: nat, n: nat)
    requires x < Pow2(n)
    ensures ToNat(ToWord(x, n)) == x
  {
    if n > 0 {
      assert x / 2 < Pow2(n - 1);
      hide Pow2;
      NatOfWord(x / 2, n - 1);
      var high, w := ToWord(x / 2, n - 1), ToWord(x, n);
      assert w == high + [x % 2 == 1];
      assert w[..n - 1] == high && w[n - 1] == (x % 2 == 1);
      hide ToWord;
    }
  }

  lemma {:induction false} ToWordLow(x: nat, n: nat, m: nat)
    requires m <= n
    ensures ToWord(x, n)[n - m..] == ToWord(x, m)
  {
    if m > 0 {
      ToWordLow(x / 2, n - 1, m - 1);
      assert ToWord(x, n)[n - m..] == ToWord(x / 2, n - 1)[n - m..] + [x % 2 == 1];
    }
  }

  lemma {:induction false} ToWordZero(n: nat)
    ensures ToWord(0, n) == Zeros(n)
  {
    if n > 0 {
      ToWordZero(n - 1);
    }
  }

  lemma {:induction false} ToWordLeadingZeros(x: nat, z: nat, n: nat)
    requires x < Pow2(n)
    ensures ToWord(x, z + n) == Zeros(z) + ToWord(x, n)
  {
    if n == 0 {
      ToWordZero(z);
    } else {
      ToWordLeadingZeros(x / 2, z, n - 1);
      assert ToWord(x, z + n) == ToWord(x / 2, z + (n - 1)) + [x % 2 == 1];
      assert (Zeros(z) + ToWord(x / 2, n - 1)) + [x % 2 == 1] == Zeros(z) + ToWord(x, n);
    }
  }

  /** 2^n - 1 is n ones. */
  lemma {:induction false} LowMask(n: nat, m: nat)
    requires n <= m
    ensures ToWord(Pow2(n) - 1, m) == Zeros(m - n) + Ones(n)
  {
    if n == 0 {
      ToWordZero(m);
    } else {
      LowMask(n - 1, m - 1);
      assert (Pow2(n) - 1) / 2 == Pow2(n - 1) - 1;
      assert Zeros(m - n) + Ones(n - 1) + [true] == Zeros(m - n) + Ones(n);
    }
  }

  lemma {:induction false} TopBitSet(x: nat, k: nat)
    requires k > 0 && Pow2(k - 1) <= x < Pow2(k)
    ensures ToWord(x, k)[0]
  {
    if k > 1 {
      TopBitSet(x / 2, k - 1);
    }
  }
}
