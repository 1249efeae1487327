/** Bit-level reading and writing over a byte array. */
module BitBuffers {
  import opened Options
  import opened Words
  import opened BitCodes

  // ---- Pure helpers on bytes ----

  /** The lowest n bits of a byte. */
  function LowestBits(byte: Byte, n: nat): (r: Byte)
    requires n <= 8
    ensures forall i :: 0 <= i < 8 ==> r[i] == (8 - n <= i && byte[i])
  {
    LowMask(n, 8);
    And(byte, ToWord(Pow2(n) - 1, 8))
  }

  /** The highest n bits of a byte, shifted down. */
  function HighestBits(byte: Byte, n: nat): (r: Byte)
    requires n <= 8
    ensures forall i :: 0 <= i < 8 ==> r[i] == (8 - n <= i && byte[i - (8 - n)])
  {
    var shift := 8 - n;
    var mask := Shl(Ones(8), shift);
    Shr(And(byte, mask), shift)
  }

  function HighestByte(val: Word): (r: Byte)
    requires |val| == 64
    ensures r == val[..8]
  {
    assert Shr(val, 56)[56..] == val[..8];
    Shr(val, 56)[56..]
  }

  /** Overwrites n bits of target at an offset with the top n bits of source. The source is
      not masked, so its next bits are or'ed into the target behind the written ones. */
  function WritePartialByte(source: Byte, n: nat, target: Byte, offset: nat): (r: Byte)
    requires offset < 8 && n <= 8 - offset
    ensures forall i :: 0 <= i < 8 ==>
      r[i] == if i < offset then target[i]
              else if i < offset + n then source[i - offset]
              else target[i] || source[i - offset]
  {
    var mask := Shr(Shl(Ones(8), 8 - n), offset);
    Or(And(target, Not(mask)), Shr(source, offset))
  }

  /** With nothing left in the source behind the n bits, only those n bits change. */
  lemma WritePartialByteExact(source: Byte, n: nat, target: Byte, offset: nat)
    requires offset < 8 && n <= 8 - offset
    requires forall i :: n <= i < 8 - offset ==> !source[i]
    ensures WritePartialByte(source, n, target, offset)
         == target[..offset] + source[..n] + target[offset + n..]
  {
  }

  /** The number of bits in the binary representation of val. */
  method CountBits(val: nat) returns (bitCount: nat)
    ensures bitCount == BitLength(val)
  {
    var v := val;
    bitCount := 0;
    while v != 0
      invariant bitCount + BitLength(v) == BitLength(val)
    {
      bitCount := bitCount + 1;
      v := v / 2;
    }
  }

  // ---- A byte array as one bit string ----

  function BitsOf(bytes: seq<Byte>): (s: Word)
    ensures |s| == 8 * |bytes|
    ensures forall k :: 0 <= k < 8 * |bytes| ==> s[k] == bytes[k / 8][k % 8]
  {
    seq(8 * |bytes|, k requires 0 <= k < 8 * |bytes| => bytes[k / 8][k % 8])
  }

  lemma BitsOfByte(bytes: seq<Byte>, i: nat)
    requires i < |bytes|
    ensures BitsOf(bytes)[8 * i..8 * i + 8] == bytes[i]
  {
    forall j | 0 <= j < 8
      ensures BitsOf(bytes)[8 * i + j] == bytes[i][j]
    {
      assert (8 * i + j) / 8 == i && (8 * i + j) % 8 == j;
    }
  }

  /** Replaces |w| bits at a position. */
  function Splice(s: Word, pos: nat, w: Word): (t: Word)
    requires pos + |w| <= |s|
    ensures |t| == |s|
  {
    s[..pos] + w + s[pos + |w|..]
  }

  lemma BitsOfUpdate(bytes: seq<Byte>, i: nat, b: Byte)
    requires i < |bytes|
    ensures BitsOf(bytes[i := b]) == Splice(BitsOf(bytes), 8 * i, b)
  {
    var s := Splice(BitsOf(bytes), 8 * i, b);
    var t := BitsOf(bytes[i := b]);
    forall k | 0 <= k < |t|
      ensures t[k] == s[k]
    {
      if k / 8 == i {
        assert k == 8 * i + k % 8;
      }
    }
  }

  lemma SpliceNothing(s: Word, pos: nat)
    requires pos <= |s|
    ensures Splice(s, pos, []) == s
  {
  }

  lemma SpliceIndex(s: Word, pos: nat, w: Word, k: nat)
    requires pos + |w| <= |s| && k < |s|
    ensures Splice(s, pos, w)[k] == if pos <= k < pos + |w| then w[k - pos] else s[k]
  {
  }

  /** Splicing in the next n bits of a code after its first bits. */
  lemma SpliceExtend(s: Word, pos: nat, code: Word, done: nat, n: nat)
    requires done + n <= |code| && pos + |code| <= |s|
    ensures Splice(Splice(s, pos, code[..done]), pos + done, code[done..done + n]) == Splice(s, pos, code[..done + n])
  {
    hide Splice;
    var a := Splice(s, pos, code[..done]);
    var b := Splice(a, pos + done, code[done..done + n]);
    var c := Splice(s, pos, code[..done + n]);
    forall k | 0 <= k < |s|
      ensures b[k] == c[k]
    {
      SpliceIndex(s, pos, code[..done], k);
      SpliceIndex(a, pos + done, code[done..done + n], k);
      SpliceIndex(s, pos, code[..done + n], k);
    }
  }

  /** A partial byte write is a splice of the bit string. */
  lemma WritePartialByteSplices(bytes: seq<Byte>, i: nat, source: Byte, n: nat, offset: nat)
    requires i < |bytes| && offset < 8 && n <= 8 - offset
    requires forall j :: n <= j < 8 - offset ==> !source[j]
    ensures BitsOf(bytes[i := WritePartialByte(source, n, bytes[i], offset)])
         == Splice(BitsOf(bytes), 8 * i + offset, source[..n])
  {
    WritePartialByteExact(source, n, bytes[i], offset);
    BitsOfByte(bytes, i);
    BitsOfUpdate(bytes, i, WritePartialByte(source, n, bytes[i], offset));
  }

  /** The byte at i, seen from an earlier bit position. */
  lemma ByteFrom(bytes: seq<Byte>, pos: nat, i: nat)
    requires i < |bytes| && pos <= 8 * i
    ensures BitsOf(bytes)[pos..][8 * i - pos..8 * i - pos + 8] == bytes[i]
  {
    BitsOfByte(bytes, i);
    assert BitsOf(bytes)[pos..][8 * i - pos..8 * i - pos + 8] == BitsOf(bytes)[8 * i..8 * i + 8];
  }

  /** The next n bits of a byte, seen from a bit position inside it. */
  lemma ByteTailFrom(bytes: seq<Byte>, i: nat, offset: nat, n: nat)
    requires i < |bytes| && offset + n <= 8
    ensures BitsOf(bytes)[8 * i + offset..][..n] == bytes[i][offset..offset + n]
  {
    BitsOfByte(bytes, i);
    assert BitsOf(bytes)[8 * i + offset..][..n] == BitsOf(bytes)[8 * i..8 * i + 8][offset..offset + n];
  }

  // ---- The steps of PeekBits and WriteBits on words ----

  /** The low bits of a byte, then the high bits of those: the middle of the byte. */
  lemma PeekWithinByte(byte: Byte, offset: nat, n: nat)
    requires offset + n <= 8
    ensures ToNat(HighestBits(LowestBits(byte, 8 - offset), offset + n)) == ToNat(byte[offset..offset + n])
  {
    var middle := byte[offset..offset + n];
    var low := LowestBits(byte, 8 - offset);
    var high := HighestBits(low, offset + n);
    var padded := Zeros(8 - n) + middle;
    forall i | 0 <= i < 8
      ensures high[i] == padded[i]
    {
    }
    assert high == padded;
    ToNatLeadingZeros(8 - n, middle);
  }

  lemma PeekWithinFirst(bytes: seq<Byte>, i: nat, offset: nat, n: nat)
    requires i < |bytes| && offset + n <= 8
    ensures ToNat(HighestBits(LowestBits(bytes[i], 8 - offset), offset + n))
            == ToNat(BitsOf(bytes)[8 * i + offset..][..n])
  {
    ByteTailFrom(bytes, i, offset, n);
    PeekWithinByte(bytes[i], offset, n);
  }

  /** Reading begins with what is left of the first byte. */
  lemma PeekFirst(bytes: seq<Byte>, i: nat, offset: nat)
    requires i < |bytes| && offset < 8
    ensures Zeros(24) + LowestBits(bytes[i], 8 - offset)
            == Zeros(32 - (8 - offset)) + BitsOf(bytes)[8 * i + offset..][..8 - offset]
  {
    ByteTailFrom(bytes, i, offset, 8 - offset);
    hide BitsOf;
  }

  /** Makes room for n bits and adds them. */
  function AddBits(bits: Word, byte: Byte, n: nat): (r: Word)
    requires |bits| == 32 && n <= 8
    ensures |r| == 32
  {
    Or(Shl(bits, n), Zeros(24) + byte)
  }

  /** Shifting in the top n bits of a byte appends them to what was read. */
  lemma ShiftIn(read: Word, byte: Byte, n: nat)
    requires 0 < n <= 8 && |read| + n <= 32
    ensures AddBits(Zeros(32 - |read|) + read, HighestBits(byte, n), n)
         == Zeros(32 - |read| - n) + (read + byte[..n])
  {
  }

  /** One round of PeekBits: the next n bits, from the byte where they start. */
  lemma PeekStep(bytes: seq<Byte>, pos: nat, i: nat, done: nat, n: nat)
    requires 0 < n <= 8 && done + n <= 32 && i < |bytes| && 8 * i == pos + done
    ensures var s := BitsOf(bytes)[pos..];
            AddBits(Zeros(32 - done) + s[..done], HighestBits(bytes[i], n), n)
            == Zeros(32 - (done + n)) + s[..done + n]
    ensures n == 8 ==> HighestBits(bytes[i], n) == bytes[i]
  {
    hide BitsOf, HighestBits, AddBits;
    var s := BitsOf(bytes)[pos..];
    ByteFrom(bytes, pos, i);
    assert bytes[i][..n] == s[done..done + 8][..n] == s[done..done + n];
    ShiftIn(s[..done], bytes[i], n);
    TakeExtend(s, done, done + n);
  }

  /** Shifting out k written bits brings the next ones to the top. */
  lemma ShiftOut(code: Word, done: nat, k: nat)
    requires done + k <= |code| <= 64
    ensures Shl(code[done..] + Zeros(64 - (|code| - done)), k)
         == code[done + k..] + Zeros(64 - (|code| - done - k))
  {
  }

  lemma TopByte(code: Word, done: nat)
    requires done + 8 <= |code| <= 64
    ensures (code[done..] + Zeros(64 - (|code| - done)))[..8] == code[done..done + 8]
  {
  }

  lemma TakeExtend(s: Word, a: nat, b: nat)
    requires a <= b <= |s|
    ensures s[..a] + s[a..b] == s[..b]
  {
  }

  /** Writing a whole byte of the code extends the splice by eight bits. */
  lemma WriteWholeByte(bytes: seq<Byte>, i: nat, b0: Word, p0: nat, code: Word, done: nat)
    requires i < |bytes| && 8 * i == p0 + done && done + 8 <= |code| && p0 + |code| <= |b0|
    requires BitsOf(bytes) == Splice(b0, p0, code[..done])
    ensures BitsOf(bytes[i := code[done..done + 8]]) == Splice(b0, p0, code[..done + 8])
  {
    hide BitsOf, Splice;
    BitsOfUpdate(bytes, i, code[done..done + 8]);
    SpliceExtend(b0, p0, code, done, 8);
  }

  /** Writing the next n bits of the code into part of a byte extends the splice by n. */
  lemma WritePartOfByte(bytes: seq<Byte>, i: nat, offset: nat, b0: Word, p0: nat, code: Word, done: nat, n: nat,
                        source: Byte)
    requires i < |bytes| && offset < 8 && n <= 8 - offset
    requires 8 * i + offset == p0 + done && done + n <= |code| <= 64 && p0 + |code| <= |b0|
    requires done + n == |code| || n == 8 - offset
    requires BitsOf(bytes) == Splice(b0, p0, code[..done])
    requires source == (code[done..] + Zeros(64 - (|code| - done)))[..8]
    ensures BitsOf(bytes[i := WritePartialByte(source, n, bytes[i], offset)])
         == Splice(b0, p0, code[..done + n])
  {
    hide BitsOf, WritePartialByte, Splice;
    var part := code[done..done + n];
    assert source[..n] == part && forall j :: n <= j < 8 - offset ==> !source[j] by {
      TopBits(code, done, n, source, offset);
    }
    assert BitsOf(bytes[i := WritePartialByte(source, n, bytes[i], offset)]) == Splice(BitsOf(bytes), p0 + done, part) by {
      WritePartialByteSplices(bytes, i, source, n, offset);
    }
    SpliceExtend(b0, p0, code, done, n);
  }

  /** The top byte of what is left of a code: its next bits, and zeros once it is used up. */
  lemma TopBits(code: Word, done: nat, n: nat, source: Byte, offset: nat)
    requires offset < 8 && n <= 8 - offset && done + n <= |code| <= 64
    requires done + n == |code| || n == 8 - offset
    requires source == (code[done..] + Zeros(64 - (|code| - done)))[..8]
    ensures source[..n] == code[done..done + n]
    ensures forall j :: n <= j < 8 - offset ==> !source[j]
  {
  }

  /** The reader and the writer share one offset and one array, so one class carries both; reading
      operations modify only the offset. */
  class BitBuffer {
    const bytes: array<Byte>
    var byteOffset: nat
    var bitOffset: nat

    ghost predicate Valid()
      reads this
    {
      && bitOffset <= 7
      && byteOffset <= bytes.Length
      && (byteOffset == bytes.Length ==> bitOffset == 0)
    }

    /** The whole buffer as a bit string. */
    ghost function Bits(): (s: Word)
      reads bytes
      ensures |s| == 8 * bytes.Length
    {
      BitsOf(bytes[..])
    }

    /** The offset as a bit position. */
    ghost function Pos(): nat
      reads this
    {
      8 * byteOffset + bitOffset
    }

    /** The bits not yet consumed. */
    ghost function Rest(): (s: Word)
      reads this, bytes
      requires Valid()
      ensures |s| == 8 * bytes.Length - Pos()
    {
      Bits()[Pos()..]
    }

    constructor (bytes: array<Byte>)
      requires bytes.Length <= UINT32_MAX
      ensures Valid() && this.bytes == bytes && Pos() == 0
    {
      this.bytes := bytes;
      byteOffset, bitOffset := 0, 0;
    }

    function RemainingBitCount(): (n: nat)
      reads this, bytes
      requires Valid()
      ensures n == |Rest()|
    {
      (bytes.Length - byteOffset) * 8 - bitOffset
    }

    /** Reads without consuming: exactly the next bits, most significant first. */
    method PeekBits(bitCount: nat) returns (r: Option<nat>)
      requires Valid() && bitCount > 0
      ensures r.Some? <==> bitCount <= 32 && bitCount <= |Rest()|
      ensures r.Some? ==> r.value == ToNat(Rest()[..bitCount])
    {
      hide ToNat, BitsOf, LowestBits, HighestBits, AddBits, Zeros;
      if bitCount > RemainingBitCount() || bitCount > 32 {
        return None;
      }
      ghost var s, all := Rest(), bytes[..];
      var i := byteOffset;
      var remainingBitsInCurrentByte := 8 - bitOffset;
      var bits: Word := Zeros(24) + LowestBits(bytes[i], remainingBitsInCurrentByte);
      if bitCount < remainingBitsInCurrentByte {
        var low := bits[24..];
        assert low == LowestBits(bytes[i], remainingBitsInCurrentByte);
        PeekWithinFirst(all, i, bitOffset, bitCount);
        return Some(ToNat(HighestBits(low, bitOffset + bitCount)));
      }
      PeekFirst(all, i, bitOffset);
      var left := bitCount - remainingBitsInCurrentByte;
      var value := PeekWholeBytes(bits, i + 1, left, bitCount);
      r := Some(value);
    }

    /** The second half of PeekBits: the whole bytes and the first bits of the last one. */
    method PeekWholeBytes(read: Word, from: nat, bitsLeft: nat, bitCount: nat) returns (value: nat)
      requires Valid() && bitsLeft < bitCount <= 32 && bitCount <= |Rest()|
      requires 8 * from == Pos() + (bitCount - bitsLeft)
      requires read == Zeros(32 - (bitCount - bitsLeft)) + Rest()[..bitCount - bitsLeft]
      ensures value == ToNat(Rest()[..bitCount])
    {
      hide ToNat, BitsOf, HighestBits, AddBits, Zeros;
      ghost var s, all := Rest(), bytes[..];
      var bits, i, left := read, from, bitsLeft;
      while left >= 8
        invariant 0 <= left < bitCount
        invariant 8 * i == Pos() + (bitCount - left)
        invariant bits == Zeros(32 - (bitCount - left)) + s[..bitCount - left]
      {
        PeekStep(all, Pos(), i, bitCount - left, 8);
        bits := AddBits(bits, bytes[i], 8);
        i := i + 1;
        left := left - 8;
      }
      if left > 0 {
        PeekStep(all, Pos(), i, bitCount - left, left);
        bits := AddBits(bits, HighestBits(bytes[i], left), left);
      }
      ToNatLeadingZeros(32 - bitCount, s[..bitCount]);
      value := ToNat(bits);
    }

    method ConsumeBits(bitCount: nat) returns (ok: bool)
      requires Valid()
      modifies this
      ensures Valid()
      ensures ok == (bitCount <= old(|Rest()|))
      ensures Pos() == old(Pos()) + if ok then bitCount else 0
    {
      if bitCount > RemainingBitCount() {
        return false;
      }
      byteOffset, bitOffset := byteOffset + (bitOffset + bitCount) / 8, (bitOffset + bitCount) % 8;
      ok := true;
    }

    method ConsumeBytes(byteCount: nat) returns (ok: bool)
      requires Valid()
      modifies this
      ensures Valid()
      ensures ok == (8 * byteCount <= old(|Rest()|))
      ensures Pos() == old(Pos()) + if ok then 8 * byteCount else 0
    {
      ok := ConsumeBits(byteCount * 8);
    }

    method ReadBits(bitCount: nat) returns (r: Option<nat>)
      requires Valid() && bitCount > 0
      modifies this
      ensures Valid()
      ensures r.Some? <==> bitCount <= 32 && bitCount <= old(|Rest()|)
      ensures r.Some? ==> r.value == ToNat(old(Rest())[..bitCount]) && Pos() == old(Pos()) + bitCount
      ensures r.None? ==> Pos() == old(Pos())
    {
      r := PeekBits(bitCount);
      if r.Some? {
        var _ := ConsumeBits(bitCount);
      }
    }

    method Seek(byteOffset: nat, bitOffset: nat) returns (ok: bool)
      requires Valid()
      modifies this
      ensures Valid()
      ensures ok == (bitOffset <= 7 && 8 * byteOffset + bitOffset <= 8 * bytes.Length)
      ensures Pos() == if ok then 8 * byteOffset + bitOffset else old(Pos())
    {
      if byteOffset > bytes.Length || bitOffset > 7 || (byteOffset == bytes.Length && bitOffset > 0) {
        return false;
      }
      this.byteOffset, this.bitOffset := byteOffset, bitOffset;
      ok := true;
    }

    /** Succeeds exactly when the remaining bits start with the code of a value below the
        32-bit maximum, returns that value and consumes its code; otherwise the offset is
        back where it was. */
    method ReadExponentialGolomb() returns (r: Option<nat>)
      requires Valid()
      modifies this
      ensures Valid()
      ensures r.Some? <==> exists v :: 0 <= v < UINT32_MAX && UeCode(v) <= old(Rest())
      ensures r.Some? ==> r.value < UINT32_MAX && UeCode(r.value) <= old(Rest())
                          && Pos() == old(Pos()) + |UeCode(r.value)|
      ensures r.None? ==> Pos() == old(Pos())
    {
      hide UeCode, BitsOf, ToNat, LeadingZeros;
      var originalByteOffset, originalBitOffset := byteOffset, bitOffset;
      ghost var s := Rest();
      var zeroBitCount := ConsumeZeros();
      var valueBitCount := zeroBitCount + 1;
      if valueBitCount <= 32 {
        r := ReadBits(valueBitCount);
      } else {
        r := None;
      }
      if r.None? {
        GolombFails(s, zeroBitCount);
        var _ := Seek(originalByteOffset, originalBitOffset);
      } else {
        var info := s[zeroBitCount..][..valueBitCount];
        GolombSucceeds(s, zeroBitCount, info);
        r := Some(r.value - 1);
      }
    }

    /** The first half of ReadExponentialGolomb: counts the zeros ahead, one at a time. */
    method ConsumeZeros() returns (zeroBitCount: nat)
      requires Valid()
      modifies this
      ensures Valid() && Pos() == old(Pos()) + zeroBitCount && zeroBitCount <= old(|Rest()|)
      ensures Rest() == old(Rest())[zeroBitCount..]
      ensures LeadingZeros(old(Rest()), zeroBitCount)
      ensures zeroBitCount < old(|Rest()|) ==> old(Rest())[zeroBitCount]
    {
      hide BitsOf, ToNat, LeadingZeros;
      ghost var s := Rest();
      zeroBitCount := 0;
      var peekedBit := PeekBits(1);
      OneBit(s, 0);
      LeadingZerosExtend(s, 0);
      while peekedBit == Some(0)
        invariant Valid()
        invariant zeroBitCount <= |s| && Rest() == s[zeroBitCount..] && Pos() == old(Pos()) + zeroBitCount
        invariant LeadingZeros(s, zeroBitCount)
        invariant peekedBit == if zeroBitCount < |s| then Some(Bit(s[zeroBitCount])) else None
        decreases |s| - zeroBitCount
      {
        LeadingZerosExtend(s, zeroBitCount);
        zeroBitCount := zeroBitCount + 1;
        var _ := ConsumeBits(1);
        assert Rest() == s[zeroBitCount..];
        peekedBit := PeekBits(1);
        OneBit(s, zeroBitCount);
      }
    }

    method ReadSignedExponentialGolomb() returns (r: Option<int>)
      requires Valid()
      modifies this
      ensures Valid()
      ensures r.Some? <==> exists v :: 0 <= v < UINT32_MAX && UeCode(v) <= old(Rest())
      ensures r.Some? ==> INT32_MIN < r.value <= INT32_MAX && UeCode(ToUnsigned(r.value)) <= old(Rest())
                          && Pos() == old(Pos()) + |UeCode(ToUnsigned(r.value))|
      ensures r.Some? ==> IsSignedCodeAt(r.value, Bits(), old(Pos()), Pos())
      ensures r.None? ==> Pos() == old(Pos())
    {
      hide IsSignedCodeAt, UeCode, ToUnsigned, BitsOf;
      var u := ReadExponentialGolomb();
      if u.None? {
        return None;
      }
      SignedBijection(u.value, FromUnsigned(u.value));
      SignedCodeAhead(FromUnsigned(u.value), Bits(), old(Pos()));
      if u.value % 2 == 0 {
        var half: int := u.value / 2;
        r := Some(-half);
      } else {
        r := Some((u.value + 1) / 2);
      }
    }

    /** Decodes the next bits. Unlike the Golomb reader, a failure on the last bit of a long
        code leaves the offset behind the bits already read. */
    method ReadNonSymmetric(numValues: nat) returns (r: Option<nat>)
      requires Valid() && 2 <= numValues < 0x8000_0000
      modifies this
      ensures Valid()
      ensures r.Some? <==> exists v :: 0 <= v < numValues && NsCode(v, numValues) <= old(Rest())
      ensures r.Some? ==> r.value < numValues && NsCode(r.value, numValues) <= old(Rest())
                          && Pos() == old(Pos()) + |NsCode(r.value, numValues)|
      ensures r.None? ==> Pos() == old(Pos())
                          + if old(|Rest()|) < BitLength(numValues) - 1 then 0 else old(|Rest()|)
    {
      hide ToNat, NsCode, BitLength, BitsOf, Pow2;
      ghost var s := Rest();
      var countBits := CountBits(numValues);
      NsWidth(numValues);
      NsBounds(numValues);
      var numMinBitsValues := Pow2(countBits) - numValues;
      r := ReadBits(countBits - 1);
      if r.None? {
        NonSymmetricNone(s, numValues);
        return;
      }
      if r.value < numMinBitsValues {
        NonSymmetricShort(s, numValues);
        return;
      }
      assert Rest() == s[countBits - 1..];
      var extraBit := ReadBits(1);
      if extraBit.None? {
        assert s[..countBits - 1] == s;
        NonSymmetricNone(s, numValues);
        return None;
      }
      NonSymmetricLong(s, numValues, r.value * 2 + extraBit.value - numMinBitsValues);
      r := Some(r.value * 2 + extraBit.value - numMinBitsValues);
    }

    /** Writes the low bits of val, most significant first, and changes no other bit. */
    method WriteBits(val: nat, bitCount: nat) returns (ok: bool)
      requires Valid() && 1 <= bitCount <= 64 && val < 0x1_0000_0000_0000_0000
      modifies this, bytes
      ensures Valid()
      ensures ok == (bitCount <= old(|Rest()|))
      ensures ok ==> Bits() == Splice(old(Bits()), old(Pos()), ToWord(val, bitCount))
                     && Pos() == old(Pos()) + bitCount
      ensures !ok ==> Bits() == old(Bits()) && Pos() == old(Pos())
    {
      hide BitsOf, Splice, WritePartialByte, HighestByte, ToWord, Zeros;
      if bitCount > RemainingBitCount() {
        return false;
      }
      ghost var b0, p0, code := Bits(), Pos(), ToWord(val, bitCount);
      ToWordLow(val, 64, bitCount);
      var v := Shl(ToWord(val, 64), 64 - bitCount);
      assert v == code[0..] + Zeros(64 - bitCount);
      var i := byteOffset;
      var remainingBitsInCurrentByte := 8 - bitOffset;
      var bitsInFirstByte := if bitCount < remainingBitsInCurrentByte then bitCount else remainingBitsInCurrentByte;
      ghost var s := bytes[..];
      assert Splice(b0, p0, code[..0]) == b0 by {
        SpliceNothing(b0, p0);
      }
      WritePartOfByte(s, i, bitOffset, b0, p0, code, 0, bitsInFirstByte, HighestByte(v));
      bytes[i] := WritePartialByte(HighestByte(v), bitsInFirstByte, bytes[i], bitOffset);
      assert bytes[..] == s[i := bytes[i]];
      hide Shl;
      if bitCount <= remainingBitsInCurrentByte {
        assert code[..bitsInFirstByte] == code;
      } else {
        ShiftOut(code, 0, bitsInFirstByte);
        WriteWholeBytes(Shl(v, bitsInFirstByte), i + 1, bitCount - bitsInFirstByte, b0, p0, code);
      }
      ok := ConsumeBits(bitCount);
    }

    /** The second half of WriteBits: the bytes after the first, of which the last may again
        be partial. The top of val holds the bits of the code still to be written. */
    method WriteWholeBytes(val: Word, from: nat, bitCount: nat, ghost b0: Word, ghost p0: nat, ghost code: Word)
      requires 0 < bitCount <= |code| <= 64 && p0 + |code| <= |b0| == 8 * bytes.Length
      requires 8 * from == p0 + (|code| - bitCount)
      requires val == code[|code| - bitCount..] + Zeros(64 - bitCount)
      requires Bits() == Splice(b0, p0, code[..|code| - bitCount])
      modifies bytes
      ensures Bits() == Splice(b0, p0, code)
    {
      hide BitsOf, Splice, WritePartialByte, HighestByte, Shl, Zeros;
      var v, i, left := val, from, bitCount;
      ghost var done := |code| - left;
      while left >= 8
        invariant 0 <= left <= bitCount && done == |code| - left
        invariant 8 * i == p0 + done
        invariant v == code[done..] + Zeros(64 - left)
        invariant BitsOf(bytes[..]) == Splice(b0, p0, code[..done])
      {
        ghost var s := bytes[..];
        ghost var next: Byte := code[done..done + 8];
        assert HighestByte(v) == next by {
          TopByte(code, done);
        }
        bytes[i] := HighestByte(v);
        assert bytes[..] == s[i := next];
        assert BitsOf(s[i := next]) == Splice(b0, p0, code[..done + 8]) by {
          WriteWholeByte(s, i, b0, p0, code, done);
        }
        assert Shl(v, 8) == code[done + 8..] + Zeros(64 - (left - 8)) by {
          ShiftOut(code, done, 8);
        }
        v := Shl(v, 8);
        i := i + 1;
        left := left - 8;
        done := done + 8;
      }
      if left > 0 {
        ghost var s := bytes[..];
        var last := WritePartialByte(HighestByte(v), left, bytes[i], 0);
        WritePartOfByte(s, i, 0, b0, p0, code, done, left, HighestByte(v));
        bytes[i] := last;
        assert bytes[..] == s[i := last];
      }
      assert code[..|code|] == code;
    }

    method WriteNonSymmetric(val: nat, numValues: nat) returns (ok: bool)
      requires Valid() && val < numValues && 2 <= numValues < 0x8000_0000
      modifies this, bytes
      ensures Valid()
      ensures ok == (|NsCode(val, numValues)| <= old(|Rest()|))
      ensures ok ==> Bits() == Splice(old(Bits()), old(Pos()), NsCode(val, numValues))
                     && Pos() == old(Pos()) + |NsCode(val, numValues)|
      ensures !ok ==> Bits() == old(Bits()) && Pos() == old(Pos())
    {
      var countBits := CountBits(numValues);
      NsWidth(numValues);
      NsBounds(numValues);
      var numMinBitsValues := Pow2(countBits) - numValues;
      if val < numMinBitsValues {
        ok := WriteBits(val, countBits - 1);
      } else {
        ok := WriteBits(val + numMinBitsValues, countBits);
      }
    }

    static method SizeNonSymmetricBits(val: nat, numValues: nat) returns (size: nat)
      requires val < numValues < 0x8000_0000
      ensures size == |NsCode(val, numValues)|
    {
      var countBits := CountBits(numValues);
      NsBounds(numValues);
      var numMinBitsValues := Pow2(countBits) - numValues;
      size := if val < numMinBitsValues then countBits - 1 else countBits;
    }

    method WriteExponentialGolomb(val: nat) returns (ok: bool)
      requires Valid() && val <= UINT32_MAX
      modifies this, bytes
      ensures Valid()
      ensures ok == (val != UINT32_MAX && |UeCode(val)| <= old(|Rest()|))
      ensures ok ==> Bits() == Splice(old(Bits()), old(Pos()), UeCode(val))
                     && Pos() == old(Pos()) + |UeCode(val)|
      ensures !ok ==> Bits() == old(Bits()) && Pos() == old(Pos())
    {
      if val == UINT32_MAX {
        return false;
      }
      var valToEncode := val + 1;
      var count := CountBits(valToEncode);
      UeWidth(val);
      BitLengthBounds(valToEncode);
      ToWordLeadingZeros(valToEncode, count - 1, count);
      ok := WriteBits(valToEncode, count * 2 - 1);
    }

    method WriteSignedExponentialGolomb(val: int) returns (ok: bool)
      requires Valid() && INT32_MIN <= val <= INT32_MAX
      modifies this, bytes
      ensures Valid()
      ensures ok == (val != INT32_MIN && |UeCode(ToUnsigned(val))| <= old(|Rest()|))
      ensures ok ==> Bits() == Splice(old(Bits()), old(Pos()), UeCode(ToUnsigned(val)))
                     && Pos() == old(Pos()) + |UeCode(ToUnsigned(val))|
      ensures ok ==> IsSignedCodeAt(val, Bits(), old(Pos()), Pos())
      ensures !ok ==> Bits() == old(Bits()) && Pos() == old(Pos())
    {
      hide IsSignedCodeAt, UeCode, Splice, BitsOf;
      if val == 0 {
        ok := WriteExponentialGolomb(0);
      } else if val > 0 {
        ok := WriteExponentialGolomb(val * 2 - 1);
      } else if val == INT32_MIN {
        ok := false;
      } else {
        ok := WriteExponentialGolomb((-val) * 2);
      }
      if ok {
        SignedCodeSpliced(val, old(Bits()), old(Pos()));
      }
    }
  }

  /** The bits between two positions are the code of a signed value. */
  ghost predicate IsSignedCodeAt(v: int, s: Word, from: nat, end: nat) {
    from <= end <= |s| && exists z :: IsSignedCode(v, z, s[from..end])
  }

  lemma SignedCodeAhead(v: int, s: Word, from: nat)
    requires from <= |s| && UeCode(ToUnsigned(v)) <= s[from..]
    ensures IsSignedCodeAt(v, s, from, from + |UeCode(ToUnsigned(v))|)
  {
    hide IsSignedCode, UeCode, ToUnsigned;
    var code := UeCode(ToUnsigned(v));
    SignedCodeOnBits(v);
    assert s[from..from + |code|] == s[from..][..|code|] == code;
  }

  lemma SignedCodeSpliced(v: int, s: Word, pos: nat)
    requires pos + |UeCode(ToUnsigned(v))| <= |s|
    ensures var code := UeCode(ToUnsigned(v)); IsSignedCodeAt(v, Splice(s, pos, code), pos, pos + |code|)
  {
    hide IsSignedCodeAt, UeCode, ToUnsigned;
    var code := UeCode(ToUnsigned(v));
    assert Splice(s, pos, code)[pos..][..|code|] == code;
    SignedCodeAhead(v, Splice(s, pos, code), pos);
  }

  ghost predicate LeadingZeros(s: Word, z: nat) {
    z <= |s| && forall i :: 0 <= i < z ==> !s[i]
  }

  lemma LeadingZerosExtend(s: Word, z: nat)
    ensures LeadingZeros(s, 0)
    ensures LeadingZeros(s, z) && z < |s| && !s[z] ==> LeadingZeros(s, z + 1)
  {
  }

  lemma OneBit(s: Word, i: nat)
    ensures i < |s| ==> ToNat(s[i..][..1]) == Bit(s[i])
  {
    if i < |s| {
      assert s[i..][..1] == [s[i]];
      assert [s[i]][..0] == [];
    }
  }

  // ---- What the readers' outcomes mean on the remaining bits ----

  /** After z zeros, either the string ends, or the value is too wide or cut short: then no
      32-bit code starts the string. */
  lemma GolombFails(s: Word, z: nat)
    requires LeadingZeros(s, z) && (z < |s| ==> s[z])
    requires z + 1 > 32 || z + 1 > |s| - z
    ensures !exists v :: 0 <= v < UINT32_MAX && UeCode(v) <= s
  {
    forall v | 0 <= v < UINT32_MAX && UeCode(v) <= s
      ensures false
    {
      var first := UeFirstOne(v, s);
      UeLeadingZeros(v, s, first);
      UeWidth(v);
    }
  }

  lemma GolombSucceeds(s: Word, z: nat, info: Word)
    requires LeadingZeros(s, z) && z < |s| && s[z] && 2 * z + 1 <= |s| && z + 1 <= 32
    requires info == s[z..][..z + 1]
    ensures ToNat(info) > 0 && ToNat(info) - 1 < UINT32_MAX
    ensures UeCode(ToNat(info) - 1) <= s && |UeCode(ToNat(info) - 1)| == 2 * z + 1
  {
    UeOfBits(z, info);
    ToNatBound(info);
    Pow2Monotone(z + 1, 32);
    Pow2Values();
    assert s[..2 * z + 1] == Zeros(z) + info;
  }

  /** Which code, if any, starts a possibly short string: decode it padded with zeros. */
  lemma NonSymmetricFits(s: Word, n: nat, v: nat, len: nat)
    requires 2 <= n < 0x8000_0000 && BitLength(n) <= 32
    requires NsDecode(s + Zeros(32), n) == (v, len)
    ensures v < n && |NsCode(v, n)| == len
    ensures len <= |s| ==> NsCode(v, n) <= s
    ensures forall u :: 0 <= u < n && NsCode(u, n) <= s ==> u == v && len <= |s|
  {
    var t := s + Zeros(32);
    NsComplete(t, n);
    assert len <= |s| ==> t[..len] == s[..len];
    forall u | 0 <= u < n && NsCode(u, n) <= s
      ensures u == v && len <= |s|
    {
      assert NsCode(u, n) <= t;
      NsPrefixFree(u, v, n, t);
    }
  }

  /** Too few bits for the short form, or exactly enough but the long form is due. */
  lemma NonSymmetricNone(s: Word, n: nat)
    requires 2 <= n < 0x8000_0000
    requires |s| < BitLength(n) - 1
             || (|s| == BitLength(n) - 1 && ToNat(s) >= NsShortValues(n))
    ensures !exists v :: 0 <= v < n && NsCode(v, n) <= s
  {
    NsWidth(n);
    NsBounds(n);
    var t := s + Zeros(32);
    var (v, len) := NsDecode(t, n);
    if |s| == BitLength(n) - 1 {
      assert t[..BitLength(n) - 1] == s;
    }
    NonSymmetricFits(s, n, v, len);
  }

  lemma NonSymmetricShort(s: Word, n: nat)
    requires 2 <= n < 0x8000_0000 && 2 <= BitLength(n) <= |s| + 1
    requires ToNat(s[..BitLength(n) - 1]) < NsShortValues(n)
    ensures var v := ToNat(s[..BitLength(n) - 1]);
            v < n && NsCode(v, n) <= s && |NsCode(v, n)| == BitLength(n) - 1
  {
    hide ToNat, ToWord, BitLength, Pow2;
    NsBounds(n);
    WordOfNat(s[..BitLength(n) - 1]);
  }

  lemma NonSymmetricLong(s: Word, n: nat, v: int)
    requires 2 <= n < 0x8000_0000 && 2 <= BitLength(n) <= |s|
    requires ToNat(s[..BitLength(n) - 1]) >= NsShortValues(n)
    requires v == ToNat(s[..BitLength(n) - 1]) * 2 + ToNat(s[BitLength(n) - 1..][..1]) - NsShortValues(n)
    ensures 0 <= v < n && NsCode(v, n) <= s && |NsCode(v, n)| == BitLength(n)
  {
    var k := BitLength(n);
    OneBit(s, k - 1);
    NsComplete(s, n);
    hide ToNat, ToWord, BitLength, Pow2, NsCode, NsShortValues;
    assert NsDecode(s, n) == (v, k);
  }
}
