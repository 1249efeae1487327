/** Records of mixed fields in one bit buffer: what is written is what is read. */
module BitFields {
  import opened Options
  import opened Words
  import opened BitCodes
  import opened BitBuffers

  datatype Field =
    | Fixed(val: nat, width: nat)
    | NonSymmetric(val: nat, numValues: nat)
    | Golomb(val: nat)
    | SignedGolomb(sval: int)

  /** The reading operation that a field needs. */
  datatype Kind =
    | FixedKind(width: nat)
    | NonSymmetricKind(numValues: nat)
    | GolombKind
    | SignedGolombKind

  function KindOf(f: Field): Kind {
    match f
    case Fixed(_, width) => FixedKind(width)
    case NonSymmetric(_, numValues) => NonSymmetricKind(numValues)
    case Golomb(_) => GolombKind
    case SignedGolomb(_) => SignedGolombKind
  }

  /** The limits that the reading operations put on their arguments. */
  predicate Readable(k: Kind) {
    match k
    case FixedKind(width) => 1 <= width <= 32
    case NonSymmetricKind(numValues) => 2 <= numValues < 0x8000_0000
    case GolombKind => true
    case SignedGolombKind => true
  }

  /** A field whose value its code can carry. */
  predicate Representable(f: Field) {
    Readable(KindOf(f)) &&
    match f
    case Fixed(val, width) => val < Pow2(width)
    case NonSymmetric(val, numValues) => val < numValues
    case Golomb(val) => val < UINT32_MAX
    case SignedGolomb(sval) => INT32_MIN < sval <= INT32_MAX
  }

  ghost function Code(f: Field): Word
    requires Representable(f)
  {
    match f
    case Fixed(val, width) => ToWord(val, width)
    case NonSymmetric(val, numValues) => NsCode(val, numValues)
    case Golomb(val) => UeCode(val)
    case SignedGolomb(sval) => UeCode(ToUnsigned(sval))
  }

  ghost predicate AllRepresentable(fs: seq<Field>) {
    forall i :: 0 <= i < |fs| ==> Representable(fs[i])
  }

  ghost function Codes(fs: seq<Field>): Word
    requires AllRepresentable(fs)
  {
    if fs == [] then [] else Codes(fs[..|fs| - 1]) + Code(fs[|fs| - 1])
  }

  ghost predicate Matches(fs: seq<Field>, kinds: seq<Kind>) {
    |fs| == |kinds| && AllRepresentable(fs) && forall i :: 0 <= i < |fs| ==> KindOf(fs[i]) == kinds[i]
  }

  /** One kind of field has at most one code at the start of a bit string. */
  lemma FieldPrefixFree(f: Field, g: Field, s: Word)
    requires Representable(f) && Representable(g) && KindOf(f) == KindOf(g)
    requires Code(f) <= s && Code(g) <= s
    ensures f == g
  {
    match f
    case Fixed(val, width) =>
      NatOfWord(val, width);
      NatOfWord(g.val, width);
      assert Code(f) == s[..width] == Code(g);
    case NonSymmetric(val, numValues) =>
      NsPrefixFree(val, g.val, numValues, s);
    case Golomb(val) =>
      UePrefixFree(val, g.val, s);
    case SignedGolomb(sval) =>
      UePrefixFree(ToUnsigned(sval), ToUnsigned(g.sval), s);
      SignedBijection(ToUnsigned(sval), sval);
      SignedBijection(ToUnsigned(g.sval), g.sval);
  }

  lemma CodesStep(fs: seq<Field>, i: nat)
    requires AllRepresentable(fs) && i < |fs|
    ensures AllRepresentable(fs[..i]) && AllRepresentable(fs[..i + 1])
    ensures Codes(fs[..i + 1]) == Codes(fs[..i]) + Code(fs[i])
  {
    assert fs[..i + 1][..i] == fs[..i];
  }

  lemma {:induction false} CodesPrefix(fs: seq<Field>, i: nat)
    requires AllRepresentable(fs) && i <= |fs|
    ensures AllRepresentable(fs[..i]) && Codes(fs[..i]) <= Codes(fs)
    decreases |fs| - i
  {
    if i < |fs| {
      CodesPrefix(fs, i + 1);
      CodesStep(fs, i);
    } else {
      assert fs[..i] == fs;
    }
  }

  lemma PrefixTail(a: Word, b: Word, s: Word)
    requires a + b <= s
    ensures a <= s && b <= s[|a|..]
  {
  }

  /** A sequence of reading operations determines at most one record in a bit string. */
  lemma {:induction false} RecordsUniquelyDecodable(fs: seq<Field>, gs: seq<Field>, kinds: seq<Kind>, s: Word)
    requires Matches(fs, kinds) && Matches(gs, kinds)
    requires Codes(fs) <= s && Codes(gs) <= s
    ensures fs == gs
    decreases |fs|
  {
    hide Code;
    if fs != [] {
      var n := |fs| - 1;
      PrefixTail(Codes(fs[..n]), Code(fs[n]), s);
      PrefixTail(Codes(gs[..n]), Code(gs[n]), s);
      RecordsUniquelyDecodable(fs[..n], gs[..n], kinds[..n], s);
      FieldPrefixFree(fs[n], gs[n], s[|Codes(fs[..n])|..]);
      assert fs == fs[..n] + [fs[n]] && gs == gs[..n] + [gs[n]];
    }
  }

  method WriteField(b: BitBuffer, f: Field) returns (ok: bool)
    requires b.Valid() && Representable(f)
    modifies b, b.bytes
    ensures b.Valid()
    ensures ok == (|Code(f)| <= old(|b.Rest()|))
    ensures ok ==> b.Bits() == Splice(old(b.Bits()), old(b.Pos()), Code(f)) && b.Pos() == old(b.Pos()) + |Code(f)|
    ensures !ok ==> b.Bits() == old(b.Bits()) && b.Pos() == old(b.Pos())
  {
    match f
    case Fixed(val, width) =>
      Pow2Monotone(width, 32);
      Pow2Values();
      ok := b.WriteBits(val, width);
    case NonSymmetric(val, numValues) =>
      ok := b.WriteNonSymmetric(val, numValues);
    case Golomb(val) =>
      ok := b.WriteExponentialGolomb(val);
    case SignedGolomb(sval) =>
      ok := b.WriteSignedExponentialGolomb(sval);
  }

  /** Where the reader of a kind finds no code, no field of that kind lies ahead. */
  lemma NoFieldAhead(k: Kind, s: Word)
    requires match k
             case FixedKind(width) => width > |s|
             case NonSymmetricKind(numValues) => !exists v :: 0 <= v < numValues && NsCode(v, numValues) <= s
             case GolombKind => !exists v :: 0 <= v < UINT32_MAX && UeCode(v) <= s
             case SignedGolombKind => !exists v :: 0 <= v < UINT32_MAX && UeCode(v) <= s
    ensures forall f :: Representable(f) && KindOf(f) == k ==> !(Code(f) <= s)
  {
    hide NsCode, UeCode;
    forall f | Representable(f) && KindOf(f) == k
      ensures !(Code(f) <= s)
    {
      if k.SignedGolombKind? {
        SignedBijection(0, f.sval);
        assert Code(f) == UeCode(ToUnsigned(f.sval));
      }
    }
  }

  method ReadField(b: BitBuffer, k: Kind) returns (r: Option<Field>)
    requires b.Valid() && Readable(k)
    modifies b
    ensures b.Valid()
    ensures r.Some? <==> exists f :: Representable(f) && KindOf(f) == k && Code(f) <= old(b.Rest())
    ensures r.Some? ==> Representable(r.value) && KindOf(r.value) == k && Code(r.value) <= old(b.Rest())
                        && b.Pos() == old(b.Pos()) + |Code(r.value)|
  {
    hide NsCode, UeCode, Pow2, BitLength, BitsOf, ToNat, ToWord;
    ghost var s := b.Rest();
    match k
    case FixedKind(width) =>
      var v := b.ReadBits(width);
      if v.None? {
        NoFieldAhead(k, s);
        return None;
      }
      ToNatBound(s[..width]);
      WordOfNat(s[..width]);
      r := Some(Fixed(v.value, width));
      assert Code(r.value) <= s;
    case NonSymmetricKind(numValues) =>
      var v := b.ReadNonSymmetric(numValues);
      if v.None? {
        NoFieldAhead(k, s);
        return None;
      }
      r := Some(NonSymmetric(v.value, numValues));
      assert Code(r.value) <= s;
    case GolombKind =>
      var v := b.ReadExponentialGolomb();
      if v.None? {
        NoFieldAhead(k, s);
        return None;
      }
      r := Some(Golomb(v.value));
      assert Code(r.value) <= s;
    case SignedGolombKind =>
      var v := b.ReadSignedExponentialGolomb();
      if v.None? {
        NoFieldAhead(k, s);
        return None;
      }
      r := Some(SignedGolomb(v.value));
      assert Code(r.value) <= s;
  }

  method WriteFields(b: BitBuffer, fs: seq<Field>) returns (ok: bool)
    requires b.Valid() && AllRepresentable(fs)
    modifies b, b.bytes
    ensures b.Valid()
    ensures ok == (|Codes(fs)| <= old(|b.Rest()|))
    ensures ok ==> b.Bits() == Splice(old(b.Bits()), old(b.Pos()), Codes(fs))
                   && b.Pos() == old(b.Pos()) + |Codes(fs)|
  {
    hide BitsOf, Splice, Code;
    ghost var b0, p0, room := b.Bits(), b.Pos(), |b.Rest()|;
    SpliceNothing(b0, p0);
    var i := 0;
    while i < |fs|
      invariant 0 <= i <= |fs| && b.Valid() && AllRepresentable(fs[..i])
      invariant |Codes(fs[..i])| <= room && b.Pos() == p0 + |Codes(fs[..i])|
      invariant b.Bits() == Splice(b0, p0, Codes(fs[..i]))
    {
      CodesStep(fs, i);
      CodesPrefix(fs, i + 1);
      ok := WriteField(b, fs[i]);
      if !ok {
        return;
      }
      ghost var code, done := Codes(fs[..i + 1]), |Codes(fs[..i])|;
      SpliceExtend(b0, p0, code, done, |Code(fs[i])|);
      assert code[..done] == Codes(fs[..i]) && code[done..done + |Code(fs[i])|] == Code(fs[i]);
      assert code[..done + |Code(fs[i])|] == code;
      i := i + 1;
    }
    assert fs[..i] == fs;
    ok := true;
  }

  /** Reads a record: the one whose codes start the remaining bits, if there is one. */
  method ReadFields(b: BitBuffer, kinds: seq<Kind>) returns (r: Option<seq<Field>>)
    requires b.Valid() && forall i :: 0 <= i < |kinds| ==> Readable(kinds[i])
    modifies b
    ensures b.Valid()
    ensures r.Some? <==> exists fs :: Matches(fs, kinds) && Codes(fs) <= old(b.Rest())
    ensures r.Some? ==> Matches(r.value, kinds) && Codes(r.value) <= old(b.Rest())
                        && b.Pos() == old(b.Pos()) + |Codes(r.value)|
  {
    hide BitsOf, Code;
    ghost var s := b.Rest();
    var fs: seq<Field> := [];
    var i := 0;
    while i < |kinds|
      invariant 0 <= i <= |kinds| && b.Valid() && Matches(fs, kinds[..i])
      invariant Codes(fs) <= s && b.Pos() == old(b.Pos()) + |Codes(fs)|
    {
      ghost var done := Codes(fs);
      assert b.Rest() == s[|done|..];
      var f := ReadField(b, kinds[i]);
      if f.None? {
        NoRecord(fs, kinds, i, s);
        return None;
      }
      assert (fs + [f.value])[..i] == fs;
      assert Codes(fs + [f.value]) == done + Code(f.value);
      fs := fs + [f.value];
      i := i + 1;
    }
    assert kinds[..i] == kinds;
    r := Some(fs);
  }

  /** If the next field cannot be read after the first i, no record can. */
  lemma NoRecord(fs: seq<Field>, kinds: seq<Kind>, i: nat, s: Word)
    requires i < |kinds| && Matches(fs, kinds[..i]) && Codes(fs) <= s
    requires !exists f :: Representable(f) && KindOf(f) == kinds[i] && Code(f) <= s[|Codes(fs)|..]
    ensures !exists gs :: Matches(gs, kinds) && Codes(gs) <= s
  {
    forall gs | Matches(gs, kinds) && Codes(gs) <= s
      ensures false
    {
      hide Code, Codes;
      CodesPrefix(gs, i);
      CodesPrefix(gs, i + 1);
      RecordsUniquelyDecodable(gs[..i], fs, kinds[..i], s);
      CodesStep(gs, i);
      PrefixTail(Codes(fs), Code(gs[i]), s);
    }
  }

  /** Writes a record, seeks back and reads it with the same operations. */
  method WriteSeekRead(b: BitBuffer, fs: seq<Field>) returns (ok: bool, r: Option<seq<Field>>)
    requires b.Valid() && AllRepresentable(fs)
    modifies b, b.bytes
    ensures b.Valid()
    ensures ok == (|Codes(fs)| <= old(|b.Rest()|))
    ensures ok ==> r == Some(fs) && b.Pos() == old(b.Pos()) + |Codes(fs)|
  {
    hide BitsOf, Code;
    var byteOffset, bitOffset := b.byteOffset, b.bitOffset;
    ok := WriteFields(b, fs);
    if !ok {
      return false, None;
    }
    var _ := b.Seek(byteOffset, bitOffset);
    ghost var s := b.Rest();
    assert Codes(fs) <= s;
    var kinds := seq(|fs|, i requires 0 <= i < |fs| => KindOf(fs[i]));
    assert Matches(fs, kinds);
    r := ReadFields(b, kinds);
    RecordsUniquelyDecodable(r.value, fs, kinds, s);
  }
}
