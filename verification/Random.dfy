/** The xorshift generator, and the reduction of its output to a range: the state never becomes
    zero, the output is a bijection of it, and the results share the 32-bit draws evenly. */
module Randoms {
  import opened Words

  const TWO32: nat := 0x1_0000_0000
  const TWO64: nat := 0x1_0000_0000_0000_0000
  const MULTIPLIER: nat := 2685821657736338717

  type State = w: seq<bool> | |w| == 64 witness Zeros(64)

  // ---- The generator ----

  function Xor(a: Word, b: Word): (r: Word)
    requires |a| == |b|
    ensures |r| == |a| && forall i :: 0 <= i < |a| ==> r[i] == (a[i] != b[i])
  {
    seq(|a|, i requires 0 <= i < |a| => a[i] != b[i])
  }

  function Step(state: State): State {
    var a := Xor(state, Shr(state, 12));
    var b := Xor(a, Shl(a, 25));
    Xor(b, Shr(b, 27))
  }

  /** The bit that a right or left shift by k brings to position i. */
  predicate FromLeft(x: Word, k: nat, i: nat) {
    k <= i < k + |x| && x[i - k]
  }

  predicate FromRight(x: Word, k: nat, i: nat) {
    i + k < |x| && x[i + k]
  }

  /** Undoes the addition of a right shift, from the most significant bit on. */
  function UndoRight(y: Word, k: nat): (x: Word)
    requires k > 0
    ensures |x| == |y|
  {
    if y == [] then []
    else
      var n, rest := |y| - 1, UndoRight(y[..|y| - 1], k);
      rest + [y[n] != FromLeft(rest, k, n)]
  }

  /** Undoes the addition of a left shift, from the least significant bit on. */
  function UndoLeft(y: Word, k: nat): (x: Word)
    requires k > 0
    ensures |x| == |y|
  {
    if y == [] then []
    else
      var rest := UndoLeft(y[1..], k);
      [y[0] != FromRight(rest, k - 1, 0)] + rest
  }

  function StepBack(state: State): State {
    UndoRight(UndoLeft(UndoRight(state, 27), 25), 12)
  }

  ghost predicate IsRightSum(y: Word, x: Word, k: nat) {
    |y| == |x| && forall i :: 0 <= i < |x| ==> y[i] == (x[i] != FromLeft(x, k, i))
  }

  ghost predicate IsLeftSum(y: Word, x: Word, k: nat) {
    |y| == |x| && forall i :: 0 <= i < |x| ==> y[i] == (x[i] != FromRight(x, k, i))
  }

  lemma RightSum(x: Word, k: nat)
    requires k <= |x|
    ensures IsRightSum(Xor(x, Shr(x, k)), x, k)
  {
    assert forall i :: 0 <= i < |x| ==> Shr(x, k)[i] == FromLeft(x, k, i);
  }

  lemma LeftSum(x: Word, k: nat)
    requires k <= |x|
    ensures IsLeftSum(Xor(x, Shl(x, k)), x, k)
  {
    assert forall i :: 0 <= i < |x| ==> Shl(x, k)[i] == FromRight(x, k, i);
  }

  lemma {:induction false} UndoRightSum(y: Word, k: nat, i: nat)
    requires k > 0 && i < |y|
    ensures UndoRight(y, k)[i] == (y[i] != FromLeft(UndoRight(y, k), k, i))
  {
    var n, rest := |y| - 1, UndoRight(y[..|y| - 1], k);
    if i < n {
      UndoRightSum(y[..n], k, i);
    }
    assert FromLeft(rest, k, i) == FromLeft(UndoRight(y, k), k, i);
  }

  lemma {:induction false} UndoLeftSum(y: Word, k: nat, i: nat)
    requires k > 0 && i < |y|
    ensures UndoLeft(y, k)[i] == (y[i] != FromRight(UndoLeft(y, k), k, i))
  {
    var x, rest := UndoLeft(y, k), UndoLeft(y[1..], k);
    if i > 0 {
      UndoLeftSum(y[1..], k, i - 1);
      assert FromRight(rest, k, i - 1) == FromRight(x, k, i);
    } else {
      assert FromRight(rest, k - 1, 0) == FromRight(x, k, 0);
    }
  }

  lemma RightUndone(x: Word, k: nat)
    requires 0 < k <= |x|
    ensures UndoRight(Xor(x, Shr(x, k)), k) == x && Xor(UndoRight(x, k), Shr(UndoRight(x, k), k)) == x
  {
    hide UndoRight, FromLeft, Shr, Xor;
    var u, y := UndoRight(x, k), Xor(x, Shr(x, k));
    RightSum(x, k);
    RightSum(u, k);
    forall i | 0 <= i < |x|
      ensures u[i] == (x[i] != FromLeft(u, k, i))
      ensures UndoRight(y, k)[i] == (y[i] != FromLeft(UndoRight(y, k), k, i))
    {
      UndoRightSum(x, k, i);
      UndoRightSum(y, k, i);
    }
    assert Xor(u, Shr(u, k)) == x;
    SameRightSums(y, UndoRight(y, k), x, k, |x|);
  }

  /** A right-shift sum determines the word, bit by bit from the top. */
  lemma {:induction false} SameRightSums(y: Word, a: Word, b: Word, k: nat, n: nat)
    requires 0 < k && n <= |a| && IsRightSum(y, a, k) && IsRightSum(y, b, k)
    ensures forall i :: 0 <= i < n ==> a[i] == b[i]
  {
    if n > 0 {
      SameRightSums(y, a, b, k, n - 1);
      assert FromLeft(a, k, n - 1) == FromLeft(b, k, n - 1);
      assert a[n - 1] == b[n - 1];
    }
  }

  lemma LeftUndone(x: Word, k: nat)
    requires 0 < k <= |x|
    ensures UndoLeft(Xor(x, Shl(x, k)), k) == x && Xor(UndoLeft(x, k), Shl(UndoLeft(x, k), k)) == x
  {
    hide UndoLeft, FromRight, Shl, Xor;
    var u, y := UndoLeft(x, k), Xor(x, Shl(x, k));
    LeftSum(x, k);
    LeftSum(u, k);
    forall i | 0 <= i < |x|
      ensures u[i] == (x[i] != FromRight(u, k, i))
      ensures UndoLeft(y, k)[i] == (y[i] != FromRight(UndoLeft(y, k), k, i))
    {
      UndoLeftSum(x, k, i);
      UndoLeftSum(y, k, i);
    }
    assert Xor(u, Shl(u, k)) == x;
    SameLeftSums(y, UndoLeft(y, k), x, k, 0);
  }

  /** A left-shift sum determines the word, bit by bit from the bottom. */
  lemma {:induction false} SameLeftSums(y: Word, a: Word, b: Word, k: nat, n: nat)
    requires 0 < k && n <= |a| && IsLeftSum(y, a, k) && IsLeftSum(y, b, k)
    ensures forall i :: n <= i < |a| ==> a[i] == b[i]
    decreases |a| - n
  {
    if n < |a| {
      SameLeftSums(y, a, b, k, n + 1);
      assert FromRight(a, k, n) == FromRight(b, k, n);
      assert a[n] == b[n];
    }
  }

  /** The step of the generator is a permutation of the 64-bit states. */
  lemma StepIsPermutation(x: State)
    ensures StepBack(Step(x)) == x && Step(StepBack(x)) == x
  {
    var a := Xor(x, Shr(x, 12));
    var b := Xor(a, Shl(a, 25));
    RightUndone(x, 12);
    LeftUndone(a, 25);
    RightUndone(b, 27);
    RightUndone(x, 27);
    LeftUndone(UndoRight(x, 27), 25);
    RightUndone(UndoLeft(UndoRight(x, 27), 25), 12);
    hide UndoRight, UndoLeft, Xor, Shl, Shr;
  }

  lemma StepIsInjective(a: State, b: State)
    ensures Step(a) == Step(b) ==> a == b
  {
    StepIsPermutation(a);
    StepIsPermutation(b);
    hide Step, StepBack;
  }

  lemma ZeroStaysZero()
    ensures Step(Zeros(64)) == Zeros(64)
  {
    var z: Word := Zeros(64);
    assert Shr(z, 12) == z && Shl(z, 25) == z && Shr(z, 27) == z && Xor(z, z) == z;
  }

  /** The state after a number of steps. */
  function StateAfter(seed: State, n: nat): State {
    if n == 0 then seed else Step(StateAfter(seed, n - 1))
  }

  /** A non-zero state never becomes zero, however long the run; and zero never changes. */
  lemma {:induction false} NeverZero(seed: State, n: nat)
    ensures StateAfter(seed, n) == Zeros(64) <==> seed == Zeros(64)
  {
    hide Step, StepBack, Zeros;
    if n > 0 {
      NeverZero(seed, n - 1);
      ZeroStaysZero();
      StepIsInjective(StateAfter(seed, n - 1), Zeros(64));
    }
  }

  /** Runs from different seeds never meet at the same length. */
  lemma {:induction false} RunsStayApart(a: State, b: State, n: nat)
    ensures StateAfter(a, n) == StateAfter(b, n) ==> a == b
  {
    hide Step, StepBack;
    if n > 0 {
      RunsStayApart(a, b, n - 1);
      StepIsInjective(StateAfter(a, n - 1), StateAfter(b, n - 1));
    }
  }

  function Output(state: State): (r: nat)
    ensures r < TWO64
  {
    ToNat(state) * MULTIPLIER % TWO64
  }

  const INVERSE: nat := 6415128727920758069

  lemma InverseMultiplier(x: nat)
    requires x < TWO64
    ensures x * MULTIPLIER % TWO64 * INVERSE % TWO64 == x
  {
    var p := x * MULTIPLIER;
    var q, r := p / TWO64, p % TWO64;
    assert MULTIPLIER * INVERSE == 934034299265436267 * TWO64 + 1;
    var k := 934034299265436267 * x - q * INVERSE;
    assert r * INVERSE == k * TWO64 + x by {
      assert p == q * TWO64 + r;
      assert p * INVERSE == x * (MULTIPLIER * INVERSE);
    }
    Remainder(r * INVERSE, k, x);
  }

  lemma Remainder(n: int, k: int, r: nat)
    requires n == k * TWO64 + r && r < TWO64
    ensures n % TWO64 == r
  {
  }

  /** The state can be read off the output, so that different states have different outputs. */
  lemma OutputIsInjective(state: State)
    ensures ToWord(Output(state) * INVERSE % TWO64, 64) == state
  {
    ToNatBound(state);
    Pow2Values();
    Pow2Add(32, 32);
    InverseMultiplier(ToNat(state));
    WordOfNat(state);
  }

  /** The output is zero for the zero state alone. */
  lemma OutputIsNonZero(state: State)
    ensures Output(state) == 0 <==> state == Zeros(64)
  {
    OutputIsInjective(state);
    ToWordZero(64);
    ToNatZeros(64);
    hide ToNat, ToWord, Zeros;
  }

  // ---- The first outputs ----

  /** The state with ones at some positions, counted from the most significant bit. */
  function Ones(at: set<nat>): (state: State)
    ensures forall i :: 0 <= i < 64 ==> (state[i] <==> i in at)
  {
    seq(64, i => i in at)
  }

  lemma {:induction false} ToNatOfFlipped(w: Word, i: nat)
    requires i < |w| && !w[i]
    ensures ToNat(w[i := true]) == ToNat(w) + Pow2(|w| - 1 - i)
  {
    var n, v := |w| - 1, w[i := true];
    if i < n {
      ToNatOfFlipped(w[..n], i);
      assert v[..n] == w[..n][i := true];
    } else {
      assert v[..n] == w[..n];
    }
  }

  lemma OneMore(at: set<nat>, i: nat)
    requires i < 64 && i !in at
    ensures ToNat(Ones(at + {i})) == ToNat(Ones(at)) + Pow2(63 - i)
  {
    assert Ones(at + {i}) == Ones(at)[i := true];
    ToNatOfFlipped(Ones(at), i);
    hide ToNat, Ones;
  }

  lemma NoOnes()
    ensures ToNat(Ones({})) == 0
  {
    assert Ones({}) == Zeros(64);
    ToNatZeros(64);
  }

  predicate MeetsLeft(a: set<nat>, k: nat, i: nat) {
    (i in a) != (i >= k && i - k in a)
  }

  predicate MeetsRight(a: set<nat>, k: nat, i: nat) {
    (i in a) != (i + k in a)
  }

  /** Each position below 64 and the one so far to its right; where two meet, both vanish. */
  function CopyRight(a: set<nat>, k: nat): set<nat> {
    set i: nat | i < 64 && MeetsLeft(a, k, i)
  }

  function CopyLeft(a: set<nat>, k: nat): set<nat> {
    set i: nat | i < 64 && MeetsRight(a, k, i)
  }

  predicate Below64(a: set<nat>) {
    forall i :: i in a ==> i < 64
  }

  lemma OnesShiftRight(a: set<nat>, k: nat)
    requires k <= 64
    ensures Xor(Ones(a), Shr(Ones(a), k)) == Ones(CopyRight(a, k))
  {
    var x := Ones(a);
    assert forall i :: 0 <= i < 64 ==> Shr(x, k)[i] == FromLeft(x, k, i);
  }

  lemma OnesShiftLeft(a: set<nat>, k: nat)
    requires k <= 64 && Below64(a)
    ensures Xor(Ones(a), Shl(Ones(a), k)) == Ones(CopyLeft(a, k))
  {
    var x := Ones(a);
    assert forall i :: 0 <= i < 64 ==> Shl(x, k)[i] == FromRight(x, k, i);
  }

  /** What one step makes of the ones: each is copied 12 to the right, then each 25 to the left, then
      each 27 to the right. */
  lemma StepOfOnes(a: set<nat>)
    ensures Step(Ones(a)) == Ones(CopyRight(CopyLeft(CopyRight(a, 12), 25), 27))
  {
    OnesShiftRight(a, 12);
    OnesShiftLeft(CopyRight(a, 12), 25);
    OnesShiftRight(CopyLeft(CopyRight(a, 12), 25), 27);
    hide Shl, Shr, Xor, Ones, CopyLeft, CopyRight;
  }

  lemma SomePowers()
    ensures Pow2(0) == 1 && Pow2(11) == 0x800 && Pow2(13) == 0x2000 && Pow2(23) == 0x80_0000
    ensures Pow2(25) == 0x200_0000 && Pow2(38) == 0x40_0000_0000 && Pow2(50) == 0x4_0000_0000_0000
  {
    assert Pow2(11) == 0x800 && Pow2(12) == 0x1000 && Pow2(13) == 0x2000;
    hide Pow2;
    Pow2Add(11, 12);
    Pow2Add(12, 13);
    Pow2Add(25, 13);
    Pow2Add(25, 25);
  }

  lemma SeedState()
    ensures ToNat(Ones({63})) == 0x1
  {
    hide ToNat, Ones, Pow2;
    SomePowers();
    NoOnes();
    OneMore({}, 63);
    assert {} + {63} == {63};
  }

  lemma FirstState()
    ensures ToNat(Ones({38, 63})) == 0x2000001
  {
    hide ToNat, Ones, Pow2;
    SomePowers();
    NoOnes();
    OneMore({}, 63);
    assert {} + {63} == {63};
    OneMore({63}, 38);
    assert {63} + {38} == {38, 63};
  }

  lemma SecondState()
    ensures ToNat(Ones({13, 25, 40, 50, 52, 63})) == 0x4004000802801
  {
    hide ToNat, Ones, Pow2;
    SomePowers();
    NoOnes();
    OneMore({}, 63);
    assert {} + {63} == {63};
    OneMore({63}, 52);
    assert {63} + {52} == {52, 63};
    OneMore({52, 63}, 50);
    assert {52, 63} + {50} == {50, 52, 63};
    OneMore({50, 52, 63}, 40);
    assert {50, 52, 63} + {40} == {40, 50, 52, 63};
    OneMore({40, 50, 52, 63}, 25);
    assert {40, 50, 52, 63} + {25} == {25, 40, 50, 52, 63};
    OneMore({25, 40, 50, 52, 63}, 13);
    assert {25, 40, 50, 52, 63} + {13} == {13, 25, 40, 50, 52, 63};
  }

  lemma FirstCopies()
    ensures CopyRight({63}, 12) == {63} && CopyLeft({63}, 25) == {38, 63} && CopyRight({38, 63}, 27) == {38, 63}
  {
  }

  lemma SecondCopies()
    ensures CopyRight({38, 63}, 12) == {38, 50, 63} && CopyLeft({38, 50, 63}, 25) == {13, 25, 50, 63}
    ensures CopyRight({13, 25, 50, 63}, 27) == {13, 25, 40, 50, 52, 63}
  {
  }

  lemma FirstStates(seed: State)
    requires ToNat(seed) == 1
    ensures Step(seed) == Ones({38, 63}) && Step(Step(seed)) == Ones({13, 25, 40, 50, 52, 63})
  {
    hide Step, ToNat, Ones, CopyLeft, CopyRight;
    SeedState();
    WordOfNat(seed);
    WordOfNat(Ones({63}));
    StepOfOnes({63});
    FirstCopies();
    StepOfOnes({38, 63});
    SecondCopies();
  }

  /** The first two outputs from a seed of 1. */
  lemma FirstOutputs(seed: State)
    requires ToNat(seed) == 1
    ensures Output(Step(seed)) == 5180492295206395165 && Output(Step(Step(seed))) == 12380297144915551517
  {
    hide Step, ToNat, Ones;
    FirstStates(seed);
    FirstState();
    SecondState();
  }

  // ---- Reduction to a range ----

  /** The integer part of x / 2^32 * (t + 1). */
  function Scale(x: nat, t: nat): nat {
    x * (t + 1) / TWO32
  }

  /** The first 32-bit draw that yields at least r. */
  function FirstDraw(r: nat, t: nat): nat {
    (r * TWO32 + t) / (t + 1)
  }

  /** The draws that yield a result are exactly those from its first draw to before the next
      one's. */
  lemma DrawsOf(x: nat, t: nat, r: nat)
    ensures Scale(x, t) == r <==> FirstDraw(r, t) <= x < FirstDraw(r + 1, t)
  {
    AtLeast(x, t, r);
    AtLeast(x, t, r + 1);
  }

  lemma AtLeast(x: nat, t: nat, r: nat)
    ensures Scale(x, t) >= r <==> FirstDraw(r, t) <= x
  {
    var d, n := t + 1, r * TWO32;
    var f := FirstDraw(r, t);
    assert f * d <= n + t < f * d + d;
    assert Scale(x, t) >= r <==> x * d >= n;
    if x >= f {
      Multiples(f, x, d);
    } else {
      Multiples(x + 1, f, d);
    }
  }

  lemma Multiples(p: nat, q: nat, d: nat)
    requires p <= q
    ensures p * d <= q * d && (p + 1) * d == p * d + d
  {
  }

  /** The results share the 32-bit draws: they start at 0, end at 2^32, and each has the floor
      or the ceiling of 2^32 / (t + 1) of them. */
  lemma DrawsAreShared(t: nat, r: nat)
    requires t < TWO32 && r <= t
    ensures FirstDraw(0, t) == 0 && FirstDraw(t + 1, t) == TWO32 == 0x1_0000_0000
    ensures TWO32 / (t + 1) <= FirstDraw(r + 1, t) - FirstDraw(r, t) <= (TWO32 + t) / (t + 1)
  {
    var d := t + 1;
    Divided(t, d, 0, t);
    assert (t + 1) * TWO32 + t == TWO32 * d + t;
    Divided((t + 1) * TWO32 + t, d, TWO32, t);
    var a, b, q := FirstDraw(r, t), FirstDraw(r + 1, t), TWO32 / d;
    var n := r * TWO32 + t;
    assert (r + 1) * TWO32 + t == n + TWO32;
    Bounds(n, d);
    Bounds(TWO32, d);
    Bounds(n + TWO32, d);
    Bounds(TWO32 + d - 1, d);
    QuotientOfSum(n, TWO32, d, a, q, b, (TWO32 + d - 1) / d);
  }

  lemma Divided(n: nat, d: nat, q: nat, r: nat)
    requires d > 0 && n == q * d + r && r < d
    ensures n / d == q
  {
    var p := n / d;
    assert p * d <= n < p * d + d;
    if p < q {
      Multiples(p, q, d);
      Multiples(p + 1, q, d);
    } else if p > q {
      Multiples(q, p, d);
      Multiples(q + 1, p, d);
    }
  }

  ghost predicate IsQuotient(q: nat, n: nat, d: nat) {
    q * d <= n < q * d + d
  }

  lemma QuotientOfSum(n: nat, m: nat, d: nat, a: nat, b: nat, c: nat, e: nat)
    requires d > 0 && IsQuotient(a, n, d) && IsQuotient(b, m, d) && IsQuotient(c, n + m, d)
    requires IsQuotient(e, m + d - 1, d)
    ensures a + b <= c <= a + e
  {
    AtLeastSum(a, b, c, n, m, d);
    AtMostSum(a, e, c, n, m, d);
  }

  lemma AtLeastSum(a: nat, b: nat, c: nat, n: nat, m: nat, d: nat)
    requires a * d <= n && b * d <= m && n + m < c * d + d
    ensures a + b <= c
  {
    Distribute(a, b, d);
    Distribute(c, 1, d);
    SmallerMultiple(a + b, c + 1, d);
  }

  lemma AtMostSum(a: nat, e: nat, c: nat, n: nat, m: nat, d: nat)
    requires n < a * d + d && m <= e * d && c * d <= n + m
    ensures c <= a + e
  {
    Distribute(a, e, d);
    Distribute(a + e, 1, d);
    SmallerMultiple(c, a + e + 1, d);
  }

  lemma Distribute(p: nat, q: nat, d: nat)
    ensures (p + q) * d == p * d + q * d
  {
  }

  lemma Bounds(n: nat, d: nat)
    requires d > 0
    ensures IsQuotient(n / d, n, d)
  {
  }

  lemma SmallerMultiple(p: nat, q: nat, d: nat)
    ensures p * d < q * d ==> p < q
  {
    if p >= q {
      Multiples(q, p, d);
    }
  }

  lemma ScaleInRange(x: nat, t: nat)
    requires x < TWO32 && t < TWO32
    ensures Scale(x, t) <= t
  {
    DrawsAreShared(t, 0);
    AtLeast(x, t, t + 1);
    hide Scale, FirstDraw;
  }

  lemma ScaleIs(x: nat, t: nat)
    ensures Scale(x, t) == x * (t + 1) / TWO32
  {
  }

  lemma UpperHalf(x: nat)
    requires x < TWO32
    ensures Scale(x, 1) == 1 <==> x >= TWO32 / 2
  {
  }

  class Random {
    var state: State

    ghost predicate Valid()
      reads this
    {
      state != Zeros(64)
    }

    constructor (seed: State)
      requires seed != Zeros(64)
      ensures Valid() && state == seed
    {
      state := seed;
    }

    method NextOutput() returns (r: nat)
      requires Valid()
      modifies this
      ensures Valid() && state == Step(old(state)) && r == Output(state) && 0 < r < TWO64
    {
      NeverZero(state, 1);
      assert StateAfter(state, 0) == state;
      state := Xor(state, Shr(state, 12));
      state := Xor(state, Shl(state, 25));
      state := Xor(state, Shr(state, 27));
      OutputIsNonZero(state);
      r := Output(state);
    }

    /** A number in [0, t]. */
    method RandUpTo(t: nat) returns (r: nat)
      requires Valid() && t < TWO32
      modifies this
      ensures Valid() && state == Step(old(state))
      ensures r <= t && r == Scale(Output(state) % TWO32, t)
      ensures FirstDraw(r, t) <= Output(state) % TWO32 < FirstDraw(r + 1, t)
    {
      hide Step, Scale, FirstDraw, Output;
      var output := NextOutput();
      var x := output % TWO32;
      var result := x * (t + 1);
      r := result / TWO32;
      ScaleIs(x, t);
      DrawsOf(x, t, r);
      ScaleInRange(x, t);
    }

    method RandUnsigned(low: nat, high: nat) returns (r: nat)
      requires Valid() && low <= high < TWO32
      modifies this
      ensures Valid() && state == Step(old(state))
      ensures low <= r <= high && r - low == Scale(Output(state) % TWO32, high - low)
    {
      hide Step, Scale, FirstDraw, Output;
      r := RandUpTo(high - low);
      r := (r + low) % TWO32;
    }

    method RandSigned(low: int, high: int) returns (r: int)
      requires Valid() && -0x8000_0000 <= low <= high < 0x8000_0000
      modifies this
      ensures Valid() && state == Step(old(state))
      ensures low <= r <= high && r - low == Scale(Output(state) % TWO32, high - low)
    {
      hide Step, Scale, FirstDraw, Output;
      r := RandUpTo(high - low);
      r := r + low;
    }

    /** True for the upper half of the draws. */
    method RandBool() returns (b: bool)
      requires Valid()
      modifies this
      ensures Valid() && state == Step(old(state))
      ensures b <==> Output(state) % TWO32 >= TWO32 / 2
    {
      hide Step, Scale, Output;
      var r := RandSigned(0, 1);
      UpperHalf(Output(state) % TWO32);
      b := r == 1;
    }
  }
}
