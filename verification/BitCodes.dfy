/** The two variable-length codes of the bit buffer, as plain bit strings. */
module BitCodes {
  import opened Words

  const UINT32_MAX := 0xFFFF_FFFF
  const INT32_MIN := -0x8000_0000
  const INT32_MAX := 0x7FFF_FFFF

  // ---- Exp-Golomb (section 9.1 of ITU-T H.264) ----

  /** One fewer zeros than v + 1 has bits, then v + 1 itself. */
  function UeCode(v: nat): Word {
    Zeros(BitLength(v + 1) - 1) + ToWord(v + 1, BitLength(v + 1))
  }

  lemma UeShape(v: nat)
    ensures BitLength(v + 1) > 0
    ensures |UeCode(v)| == 2 * BitLength(v + 1) - 1
    ensures forall i :: 0 <= i < BitLength(v + 1) - 1 ==> !UeCode(v)[i]
    ensures UeCode(v)[BitLength(v + 1) - 1]
    ensures ToNat(UeCode(v)[BitLength(v + 1) - 1..]) == v + 1
  {
    BitLengthBounds(v + 1);
    var k := BitLength(v + 1);
    TopBitSet(v + 1, k);
    NatOfWord(v + 1, k);
    assert UeCode(v)[k - 1..] == ToWord(v + 1, k);
  }

  /** A code for an unsigned 32-bit value below the maximum takes at most 63 bits. */
  lemma UeWidth(v: nat)
    requires v < UINT32_MAX
    ensures 1 <= BitLength(v + 1) <= 32
  {
    BitLengthBounds(v + 1);
    Pow2Values();
    if BitLength(v + 1) > 32 {
      Pow2Monotone(32, BitLength(v + 1) - 1);
    }
  }

  /** Any string of z zeros, a one and z more bits is the code of exactly one value. */
  lemma UeOfBits(z: nat, info: Word)
    requires |info| == z + 1 && info[0]
    ensures ToNat(info) > 0 && UeCode(ToNat(info) - 1) == Zeros(z) + info
  {
    ToNatTopBit(info);
    ToNatBound(info);
    BitLengthUnique(ToNat(info), z + 1);
    WordOfNat(info);
  }

  /** The code of a value is determined by its leading zeros and the bits after its one. */
  lemma UeInjective(a: nat, b: nat)
    requires UeCode(a) == UeCode(b)
    ensures a == b
  {
    UeShape(a);
    UeShape(b);
    assert BitLength(a + 1) == BitLength(b + 1);
  }

  /** The value of section 9.1: codeNum = 2^leadingZeroBits - 1 + read_bits(leadingZeroBits). */
  lemma UeCodeNumber(v: nat, leadingZeroBits: nat, suffix: Word)
    requires |suffix| == leadingZeroBits
    ensures UeCode(v) == Zeros(leadingZeroBits) + [true] + suffix
            <==> v == Pow2(leadingZeroBits) - 1 + ToNat(suffix)
  {
    var info := [true] + suffix;
    var u := Pow2(leadingZeroBits) - 1 + ToNat(suffix);
    assert ToNat(info) == u + 1 by {
      ToNatConcat([true], suffix);
      assert [true][..0] == [];
      assert ToNat([true]) == 1;
    }
    UeOfBits(leadingZeroBits, info);
    assert Zeros(leadingZeroBits) + [true] + suffix == Zeros(leadingZeroBits) + info == UeCode(u);
    if UeCode(v) == UeCode(u) {
      UeInjective(v, u);
    }
  }

  /** The leading zeros of a bit string give the length of the only code it can start with. */
  lemma UeLeadingZeros(v: nat, s: Word, z: nat)
    requires UeCode(v) <= s && z < |s| && s[z]
    requires forall i :: 0 <= i < z ==> !s[i]
    ensures BitLength(v + 1) == z + 1 && 2 * z + 1 <= |s| && UeCode(v) == s[..2 * z + 1]
  {
    UeShape(v);
    assert forall i :: 0 <= i < |UeCode(v)| ==> s[i] == UeCode(v)[i];
  }

  /** Exp-Golomb is prefix-free: at most one value's code starts a bit string. */
  lemma UePrefixFree(a: nat, b: nat, s: Word)
    requires UeCode(a) <= s && UeCode(b) <= s
    ensures a == b
  {
    var z := UeFirstOne(a, s);
    UeLeadingZeros(a, s, z);
    UeLeadingZeros(b, s, z);
    UeInjective(a, b);
  }

  lemma UeFirstOne(v: nat, s: Word) returns (z: nat)
    requires UeCode(v) <= s
    ensures z < |s| && s[z] && forall i :: 0 <= i < z ==> !s[i]
  {
    UeShape(v);
    z := BitLength(v + 1) - 1;
    assert forall i :: 0 <= i < |UeCode(v)| ==> s[i] == UeCode(v)[i];
  }

  // ---- Signed Exp-Golomb (section 9.1.1 of ITU-T H.264) ----

  /** The order 0, 1, -1, 2, -2, ... as the reader computes it. */
  function FromUnsigned(u: nat): int {
    if u % 2 == 0 then -(u / 2) else (u + 1) / 2
  }

  /** The same order as the writer computes it. */
  function ToUnsigned(v: int): nat {
    if v == 0 then 0 else if v > 0 then v * 2 - 1 else (-v) * 2
  }

  /** The two maps are inverse bijections between [0, 2^32 - 2] and the 32-bit integers
      without their minimum. */
  lemma SignedBijection(u: nat, v: int)
    ensures u < UINT32_MAX == 0xFFFF_FFFF <==> INT32_MIN < FromUnsigned(u) <= INT32_MAX
    ensures ToUnsigned(v) < UINT32_MAX <==> INT32_MIN == -0x8000_0000 < v <= INT32_MAX == 0x7FFF_FFFF
    ensures u == ToUnsigned(v) <==> v == FromUnsigned(u)
  {
    if u % 2 == 0 {
      assert u == 2 * (u / 2);
    } else {
      assert u + 1 == 2 * ((u + 1) / 2);
    }
  }

  /** A signed value by the bits alone: z zeros, then z + 1 bits that begin with a one. Without its
      last bit, the number that these form is the magnitude; the last bit is 0 for the positive
      values and 1 for all others. */
  ghost predicate IsSignedCode(v: int, z: nat, s: Word) {
    && |s| == 2 * z + 1 && (forall i :: 0 <= i < z ==> !s[i]) && s[z]
    && (v > 0 <==> !s[2 * z])
    && ToNat(s[z..2 * z]) == if v > 0 then v else -v
  }

  lemma SignedCodeOnBits(v: int)
    ensures IsSignedCode(v, BitLength(ToUnsigned(v) + 1) - 1, UeCode(ToUnsigned(v)))
  {
    hide UeCode, BitLength, ToUnsigned, ToNat, Pow2;
    var u := ToUnsigned(v);
    UeShape(u);
    MagnitudeAndSign(v);
    LastBitSplit(UeCode(u), BitLength(u + 1) - 1);
  }

  lemma MagnitudeAndSign(v: int)
    ensures ToUnsigned(v) + 1 == if v > 0 then 2 * v else 2 * -v + 1
  {
  }

  lemma LastBitSplit(s: Word, z: nat)
    requires |s| == 2 * z + 1
    ensures ToNat(s[z..]) == 2 * ToNat(s[z..2 * z]) + Bit(s[2 * z])
  {
    assert s[z..][..z] == s[z..2 * z];
  }

  /** No other signed value has these bits. */
  lemma SignedCodeIsUnique(v: int, z: nat, s: Word)
    requires IsSignedCode(v, z, s)
    ensures s == UeCode(ToUnsigned(v)) && z == BitLength(ToUnsigned(v) + 1) - 1
  {
    hide UeCode, BitLength, ToUnsigned, ToNat, Pow2;
    var u := ToUnsigned(v);
    MagnitudeAndSign(v);
    LastBitSplit(s, z);
    UeOfBits(z, s[z..]);
    UeShape(u);
    assert s == Zeros(z) + s[z..];
  }

  // ---- The non-symmetric code ns(n) (section 4.10.7 of the AV1 bitstream specification) ----

  /** How many of the n values take the shorter code. */
  function NsShortValues(n: nat): (m: nat)
    requires n > 0
    ensures 0 < m <= n && m + n == Pow2(BitLength(n))
  {
    BitLengthBounds(n);
    Pow2(BitLength(n)) - n
  }

  function NsCode(v: nat, n: nat): (w: Word)
    requires v < n
  {
    BitLengthBounds(n);
    var k := BitLength(n);
    var m := NsShortValues(n);
    if v < m then ToWord(v, k - 1) else ToWord(v + m, k)
  }

  lemma NsBounds(n: nat)
    requires n > 0
    ensures var k := BitLength(n);
            k > 0 && Pow2(k) == 2 * Pow2(k - 1)
            && 1 <= NsShortValues(n) <= Pow2(k - 1) && NsShortValues(n) <= n
            && n + NsShortValues(n) == Pow2(k)
  {
    BitLengthBounds(n);
  }

  /** For 2 <= n < 2^31 a code is 1 to 31 bits, so every shift stays inside a word. */
  lemma NsWidth(n: nat)
    requires 2 <= n < 0x8000_0000
    ensures 2 <= BitLength(n) <= 31
  {
    BitLengthBounds(n);
    Pow2Values();
    if BitLength(n) > 31 {
      Pow2Monotone(31, BitLength(n) - 1);
    }
  }

  /** The decoding rule: k - 1 bits decide, and a large prefix takes one more bit. */
  function NsDecode(s: Word, n: nat): (r: (nat, nat))
    requires n > 0 && |s| >= BitLength(n)
  {
    BitLengthBounds(n);
    var k := BitLength(n);
    var m := NsShortValues(n);
    var w := ToNat(s[..k - 1]);
    if w < m then (w, k - 1)
    else assert 2 * w >= m by { NsBounds(n); } (2 * w + Bit(s[k - 1]) - m, k)
  }

  lemma NsSplit(s: Word, k: nat)
    requires 0 < k <= |s|
    ensures ToNat(s[..k]) == 2 * ToNat(s[..k - 1]) + Bit(s[k - 1])
  {
    assert s[..k][..k - 1] == s[..k - 1];
  }

  /** The code is complete: every long enough bit string starts with the code of exactly
      the value that decoding yields, and that value is in range. */
  lemma NsComplete(s: Word, n: nat)
    requires n > 0 && |s| >= BitLength(n)
    ensures var (v, len) := NsDecode(s, n);
            v < n && NsCode(v, n) == s[..len]
  {
    hide ToNat, ToWord, Pow2, BitLength, NsShortValues;
    NsBounds(n);
    var k := BitLength(n);
    var w := ToNat(s[..k - 1]);
    ToNatBound(s[..k - 1]);
    if w < NsShortValues(n) {
      WordOfNat(s[..k - 1]);
    } else {
      NsSplit(s, k);
      WordOfNat(s[..k]);
    }
  }

  /** Encoding then decoding is the identity, whatever follows the code. */
  lemma NsInverse(v: nat, n: nat, s: Word)
    requires v < n && NsCode(v, n) <= s && |s| >= BitLength(n)
    ensures NsDecode(s, n) == (v, |NsCode(v, n)|)
  {
    hide ToNat, ToWord, Pow2, BitLength, NsShortValues;
    NsBounds(n);
    var k := BitLength(n);
    var m := NsShortValues(n);
    if v < m {
      NatOfWord(v, k - 1);
      assert s[..k - 1] == ToWord(v, k - 1);
    } else {
      NatOfWord(v + m, k);
      assert s[..k] == ToWord(v + m, k);
      NsSplit(s, k);
    }
  }

  /** A code that fits in fewer bits than the long form is a short one. */
  lemma NsPrefixFree(a: nat, b: nat, n: nat, s: Word)
    requires a < n && b < n && NsCode(a, n) <= s && NsCode(b, n) <= s
    ensures a == b
  {
    NsBounds(n);
    var t := s + Zeros(BitLength(n));
    assert NsCode(a, n) <= t && NsCode(b, n) <= t;
    NsInverse(a, n, t);
    NsInverse(b, n, t);
  }

  /** The first bits that differ are 0 in the one and 1 in the other. */
  ghost predicate ComesBefore(a: Word, b: Word) {
    exists i :: 0 <= i < |a| && i < |b| && a[..i] == b[..i] && !a[i] && b[i]
  }

  lemma {:induction false} SmallerComesBefore(a: Word, b: Word)
    requires |a| == |b| && ToNat(a) < ToNat(b)
    ensures ComesBefore(a, b)
  {
    var n := |a| - 1;
    if ToNat(a[..n]) < ToNat(b[..n]) {
      SmallerComesBefore(a[..n], b[..n]);
      var i :| 0 <= i < n && a[..n][..i] == b[..n][..i] && !a[..n][i] && b[..n][i];
      assert a[..i] == a[..n][..i] && b[..i] == b[..n][..i];
    } else {
      ToNatIsInjective(a[..n], b[..n]);
      assert a[..n] == b[..n] && !a[n] && b[n];
    }
  }

  lemma ToNatIsInjective(a: Word, b: Word)
    requires |a| == |b| && ToNat(a) == ToNat(b)
    ensures a == b
  {
    WordOfNat(a);
    WordOfNat(b);
  }

  /** A code as a number. */
  lemma NsNumber(v: nat, n: nat)
    requires v < n
    ensures var m := NsShortValues(n);
            |NsCode(v, n)| == (if v < m then BitLength(n) - 1 else BitLength(n))
            && ToNat(NsCode(v, n)) == if v < m then v else v + m
  {
    hide ToNat, ToWord, Pow2, BitLength, NsShortValues;
    NsBounds(n);
    var k, m := BitLength(n), NsShortValues(n);
    if v < m {
      NatOfWord(v, k - 1);
    } else {
      NatOfWord(v + m, k);
    }
  }

  /** The codes are in the order of their values. */
  lemma NsOrdered(a: nat, b: nat, n: nat)
    requires a < b < n
    ensures ComesBefore(NsCode(a, n), NsCode(b, n))
  {
    NsNumber(a, n);
    NsNumber(b, n);
    hide *;
    var c, d := NsCode(a, n), NsCode(b, n);
    if |c| == |d| {
      SmallerComesBefore(c, d);
    } else {
      ShortComesBefore(c, d);
    }
  }

  lemma ShortComesBefore(c: Word, d: Word)
    requires |d| == |c| + 1 && 2 * ToNat(c) + 1 < ToNat(d)
    ensures ComesBefore(c, d)
  {
    assert ToNat(d) == 2 * ToNat(d[..|c|]) + Bit(d[|c|]);
    hide ToNat;
    SmallerComesBefore(c, d[..|c|]);
    var i :| 0 <= i < |c| && c[..i] == d[..|c|][..i] && !c[i] && d[..|c|][i];
    assert d[..|c|][..i] == d[..i];
  }

  lemma NsLengths(v: nat, n: nat, k: nat)
    requires v < n && k > 0 && Pow2(k - 1) <= n < Pow2(k)
    ensures |NsCode(v, n)| == if v < Pow2(k) - n then k - 1 else k
  {
    BitLengthUnique(n, k);
  }

  /** Sum of 2^(k - length) over the codes of the values below v. */
  function KraftSum(v: nat, n: nat): nat
    requires v <= n && n > 0
  {
    if v == 0 then 0
    else
      assert |NsCode(v - 1, n)| <= BitLength(n) by { NsBounds(n); }
      KraftSum(v - 1, n) + Pow2(BitLength(n) - |NsCode(v - 1, n)|)
  }

  lemma {:induction false} KraftSumClosed(v: nat, n: nat)
    requires v <= n && n > 0
    ensures KraftSum(v, n) == if v <= NsShortValues(n) then 2 * v else NsShortValues(n) + v
  {
    if v > 0 {
      KraftSumClosed(v - 1, n);
      NsBounds(n);
      assert Pow2(1) == 2;
    }
  }

  /** The weighted code lengths sum to exactly one: no bit pattern is wasted. */
  lemma NsKraftEquality(n: nat)
    requires n > 0
    ensures KraftSum(n, n) == Pow2(BitLength(n))
  {
    KraftSumClosed(n, n);
    NsBounds(n);
  }
}
