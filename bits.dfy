// 32-bit register words as the Bouffalo clock engine uses them: a field of a
// register is named by a mask, its value is the masked word divided by the
// mask's lowest set bit, and a write is a read-modify-write (`clrsetbits`).
//
// A word is its sequence of 32 bits, bit 0 first, so that the bitwise
// operators of C are pointwise operations and facts about them are facts
// about sequences. The arithmetic the source does on words (division and
// multiplication by the lowest set bit, the `+ 1` of a parent count, u32
// wrap-around) is done on the word's numeric value `Val`.

module Bits {

  /** A u32 as a sequence of its 32 bits, least significant first. */
  type Word = w: seq<bool> | |w| == 32 witness Zeros(32)

  /** The word with no bit set. */
  const Zero: Word := Zeros(32)

  function Pow2(k: nat): (r: nat)
    ensures r >= 1
  {
    if k == 0 then 1 else 2 * Pow2(k - 1)
  }

  /** Numeric value of a little-endian bit sequence. */
  function Val(b: seq<bool>): nat {
    if |b| == 0 then 0 else (if b[0] then 1 else 0) + 2 * Val(b[1..])
  }

  /** The low `len` bits of `n`; `FromNat(n, 32)` is the u32 cast of `n`. */
  function FromNat(n: nat, len: nat): (b: seq<bool>)
    ensures |b| == len
  {
    if len == 0 then [] else [n % 2 == 1] + FromNat(n / 2, len - 1)
  }

  /** The u32 holding `n` modulo 2^32. */
  function ToWord(n: nat): Word {
    FromNat(n, 32)
  }

  function Zeros(n: nat): (b: seq<bool>)
    ensures |b| == n && forall i :: 0 <= i < n ==> !b[i]
  {
    seq(n, i => false)
  }

  // ---- the C operators ----

  function And(a: Word, b: Word): (r: Word)
    ensures forall i :: 0 <= i < 32 ==> r[i] == (a[i] && b[i])
  {
    seq(32, i requires 0 <= i < 32 => a[i] && b[i])
  }

  function Or(a: Word, b: Word): (r: Word)
    ensures forall i :: 0 <= i < 32 ==> r[i] == (a[i] || b[i])
  {
    seq(32, i requires 0 <= i < 32 => a[i] || b[i])
  }

  function Not(a: Word): (r: Word)
    ensures forall i :: 0 <= i < 32 ==> r[i] == !a[i]
  {
    seq(32, i requires 0 <= i < 32 => !a[i])
  }

  /** `clrsetbits_le32`: clear the bits of `clear`, then or in `bits`. The
      value or-ed in is not masked. */
  function ClrSetBits(w: Word, clear: Word, bits: Word): Word {
    Or(And(w, Not(clear)), bits)
  }

  /** `setbits_le32`. */
  function SetBits(w: Word, bits: Word): Word {
    Or(w, bits)
  }

  /** `clrbits_le32`. */
  function ClrBits(w: Word, clear: Word): Word {
    And(w, Not(clear))
  }

  /** `setbits_le32` is a `clrsetbits_le32` that clears nothing. */
  lemma SetBitsAsClrSet(w: Word, bits: Word)
    ensures ClrSetBits(w, Zero, bits) == SetBits(w, bits)
  {
    assert forall k :: 0 <= k < 32 ==> ClrSetBits(w, Zero, bits)[k] == SetBits(w, bits)[k];
  }

  /** `clrbits_le32` is a `clrsetbits_le32` that sets nothing. */
  lemma ClrBitsAsClrSet(w: Word, clear: Word)
    ensures ClrSetBits(w, clear, Zero) == ClrBits(w, clear)
  {
    assert forall k :: 0 <= k < 32 ==> ClrSetBits(w, clear, Zero)[k] == ClrBits(w, clear)[k];
  }

  // ---- masks ----

  /** The word whose set bits are positions `s` to `s + k - 1`. */
  function Run(s: nat, k: nat): (r: Word)
    ensures forall i :: 0 <= i < 32 ==> r[i] == (s <= i < s + k)
  {
    seq(32, i => s <= i < s + k)
  }

  /** `BIT(p)`. */
  function Bit(p: nat): Word {
    Run(p, 1)
  }

  /** `GENMASK(h, l)`. */
  function GenMask(h: nat, l: nat): Word
    requires l <= h
  {
    Run(l, h - l + 1)
  }

  /** Index of the lowest set bit of `m` at or above `i`; 32 if there is none. */
  function LowIdxFrom(m: Word, i: nat): (r: nat)
    requires i <= 32
    ensures i <= r <= 32
    ensures r < 32 ==> m[r]
    ensures forall j :: i <= j < r ==> !m[j]
    decreases 32 - i
  {
    if i == 32 then 32 else if m[i] then i else LowIdxFrom(m, i + 1)
  }

  /** Index of the lowest set bit of `m`; 32 when `m` is zero. */
  function LowIdx(m: Word): nat {
    LowIdxFrom(m, 0)
  }

  /** `m & -m`: the lowest set bit of `m` alone (zero for zero). */
  function LowBit(m: Word): Word {
    seq(32, i => i == LowIdx(m))
  }

  /** Number of consecutive set bits of `m` starting at position `i`. */
  function RunFrom(m: Word, i: nat): (r: nat)
    requires i <= 32
    ensures i + r <= 32
    ensures forall j :: i <= j < i + r ==> m[j]
    ensures i + r < 32 ==> !m[i + r]
    decreases 32 - i
  {
    if i < 32 && m[i] then 1 + RunFrom(m, i + 1) else 0
  }

  /** Width of the run of ones that starts at the lowest set bit of `m`. */
  function Width(m: Word): nat {
    RunFrom(m, LowIdx(m))
  }

  /** A mask is contiguous when its set bits form one run: nothing is set
      above the run that starts at its lowest set bit. */
  predicate Contiguous(m: Word) {
    forall i :: LowIdx(m) + Width(m) <= i < 32 ==> !m[i]
  }

  lemma {:induction false} LowIdxOfRun(s: nat, k: nat, i: nat)
    requires 1 <= k && s + k <= 32 && i <= s
    ensures LowIdxFrom(Run(s, k), i) == s
    decreases s - i
  {
    if i < s {
      LowIdxOfRun(s, k, i + 1);
    }
  }

  lemma {:induction false} RunFromOfRun(s: nat, k: nat, i: nat)
    requires s + k <= 32 && s <= i <= s + k
    ensures RunFrom(Run(s, k), i) == s + k - i
    decreases s + k - i
  {
    if i < s + k {
      RunFromOfRun(s, k, i + 1);
    }
  }

  /** A run of `k >= 1` bits from position `s` (`BIT`, `GENMASK`) is a
      contiguous mask whose lowest bit is `s` and whose width is `k`. */
  lemma RunShape(s: nat, k: nat)
    requires 1 <= k && s + k <= 32
    ensures Run(s, k) != Zero && Contiguous(Run(s, k))
    ensures LowIdx(Run(s, k)) == s && Width(Run(s, k)) == k
  {
    LowIdxOfRun(s, k, 0);
    RunFromOfRun(s, k, s);
    assert Run(s, k)[s] != Zero[s];
  }

  /** The bits of a contiguous mask are exactly those of its run. */
  lemma ContiguousBits(m: Word)
    requires Contiguous(m)
    ensures LowIdx(m) + Width(m) <= 32
    ensures forall i :: 0 <= i < 32 ==> (m[i] <==> LowIdx(m) <= i < LowIdx(m) + Width(m))
  {}

  lemma ContiguousIsRun(m: Word)
    requires Contiguous(m)
    ensures m == Run(LowIdx(m), Width(m))
  {
    ContiguousBits(m);
  }

  // ---- fields, as the source computes them ----

  /** Largest value of the field `m`: `m / (m & -m)`. */
  function FieldMax(m: Word): int
    requires m != Zero
  {
    LowBitValue(m);
    Val(m) / Val(LowBit(m))
  }

  /** Number of values of the field `m` in u32 arithmetic: 1 for the absent
      field, else `m / (m & -m) + 1`, which wraps to 0 for the full mask. */
  function FieldCount(m: Word): int {
    if m == Zero then 1 else (FieldMax(m) + 1) % 0x1_0000_0000
  }

  /** Value of the field `m` of `w`: `(w & m) / (m & -m)`. */
  function FieldGet(w: Word, m: Word): int
    requires m != Zero
  {
    LowBitValue(m);
    Val(And(w, m)) / Val(LowBit(m))
  }

  /** The word the source or-s in to set field `m` to `v`: the u32 product
      `v * (m & -m)`. */
  function FieldBits(m: Word, v: nat): Word {
    ToWord(Mul(v, Val(LowBit(m))))
  }

  /** Product of naturals, named so that the solver treats it as one term. */
  function Mul(a: nat, b: nat): nat {
    a * b
  }

  // ---- numeric value ----

  lemma {:induction false} ValBound(b: seq<bool>)
    ensures Val(b) < Pow2(|b|)
  {
    if |b| > 0 {
      ValBound(b[1..]);
    }
  }

  lemma {:induction false} ValConcat(a: seq<bool>, b: seq<bool>)
    ensures Val(a + b) == Val(a) + Mul(Pow2(|a|), Val(b))
  {
    if |a| == 0 {
      assert a + b == b;
    } else {
      var h := if a[0] then 1 else 0;
      var p := Pow2(|a| - 1);
      assert (a + b)[0] == a[0] && (a + b)[1..] == a[1..] + b;
      assert Val(a + b) == h + 2 * Val(a[1..] + b);
      assert Val(a) == h + 2 * Val(a[1..]);
      ValConcat(a[1..], b);
      assert Pow2(|a|) == 2 * p;
      MulDoubleLeft(p, Val(b));
    }
  }

  lemma {:induction false} ValZeros(n: nat)
    ensures Val(Zeros(n)) == 0
  {
    if n > 0 {
      assert Zeros(n)[1..] == Zeros(n - 1);
      ValZeros(n - 1);
    }
  }

  lemma {:induction false} ValOnes(k: nat)
    ensures Val(seq(k, i => true)) == Pow2(k) - 1
  {
    if k > 0 {
      assert seq(k, i => true)[1..] == seq(k - 1, i => true);
      ValOnes(k - 1);
    }
  }

  lemma {:induction false} FromNatVal(n: nat, len: nat)
    ensures Val(FromNat(n, len)) == n % Pow2(len)
  {
    if len > 0 {
      assert FromNat(n, len)[1..] == FromNat(n / 2, len - 1);
      FromNatVal(n / 2, len - 1);
      ModTwice(n, Pow2(len - 1));
    }
  }

  /** `n mod 2p` from the last bit and `n / 2 mod p`. */
  lemma ModTwice(n: nat, p: nat)
    requires p >= 1
    ensures n % (2 * p) == n % 2 + 2 * ((n / 2) % p)
  {
    var q := (n / 2) / p;
    var r := (n / 2) % p;
    assert n / 2 == q * p + r;
    assert n == (2 * p) * q + (n % 2 + 2 * r);
    DivModUnique(n, 2 * p, q, n % 2 + 2 * r);
  }

  lemma DivModUnique(a: nat, d: nat, q: nat, r: nat)
    requires d >= 1 && r < d && a == d * q + r
    ensures a / d == q && a % d == r
  {
    var q' := a / d;
    var r' := a % d;
    assert a == d * q' + r';
    if q' < q {
      assert d * q == d * q' + d * (q - q');
      MulAtLeast(d, q - q');
      assert false;
    } else if q' > q {
      assert d * q' == d * q + d * (q' - q);
      MulAtLeast(d, q' - q);
      assert false;
    }
  }

  lemma {:induction false} MulAtLeast(d: nat, k: nat)
    requires k >= 1
    ensures d * k >= d
  {
    if k > 1 {
      MulAtLeast(d, k - 1);
      assert d * k == d * (k - 1) + d;
    }
  }

  /** The bits of `v * 2^s` are `s` zeros followed by the bits of `v`. */
  lemma {:induction false} FromNatShifted(v: nat, s: nat, len: nat)
    requires s <= len
    ensures FromNat(Mul(v, Pow2(s)), len) == Zeros(s) + FromNat(v, len - s)
  {
    if s > 0 {
      var x := Mul(v, Pow2(s - 1));
      MulDoubleRight(v, Pow2(s - 1));
      assert (2 * x) % 2 == 0 && (2 * x) / 2 == x;
      FromNatShifted(v, s - 1, len - 1);
      assert Zeros(s) == [false] + Zeros(s - 1);
    }
  }

  /** A value below `2^k` has no set bit at or above `k`. */
  lemma {:induction false} FromNatSmall(v: nat, k: nat, len: nat)
    requires k <= len && v < Pow2(k)
    ensures FromNat(v, len) == FromNat(v, k) + Zeros(len - k)
  {
    if k == 0 {
      assert v == 0;
      FromNatZero(len);
    } else {
      FromNatSmall(v / 2, k - 1, len - 1);
    }
  }

  lemma {:induction false} FromNatZero(len: nat)
    ensures FromNat(0, len) == Zeros(len)
  {
    if len > 0 {
      FromNatZero(len - 1);
      assert Zeros(len) == [false] + Zeros(len - 1);
    }
  }

  lemma MulDivCancel(p: nat, x: nat)
    requires p >= 1
    ensures Mul(p, x) / p == x
  {
    DivModUnique(p * x, p, x, 0);
  }

  lemma MulDoubleLeft(p: nat, x: nat)
    ensures Mul(2 * p, x) == 2 * Mul(p, x)
  {}

  lemma MulDoubleRight(x: nat, p: nat)
    ensures Mul(x, 2 * p) == 2 * Mul(x, p)
  {}

  lemma MulZero(p: nat)
    ensures Mul(p, 0) == 0
  {}

  lemma MulOne(p: nat)
    ensures Mul(p, 1) == p
  {}

  // ---- the lowest set bit ----

  lemma LowBitShape(m: Word)
    requires m != Zero
    ensures LowIdx(m) < 32
    ensures LowBit(m) == Zeros(LowIdx(m)) + [true] + Zeros(31 - LowIdx(m))
  {
    if LowIdx(m) == 32 {
      assert false;
    }
  }

  /** `m & -m` is `2^p` for the index `p` of the lowest set bit. */
  lemma LowBitValue(m: Word)
    requires m != Zero
    ensures LowIdx(m) < 32 && Val(LowBit(m)) == Pow2(LowIdx(m))
  {
    var s := LowIdx(m);
    LowBitShape(m);
    ValOfPlaced([true], s, 31 - s);
    assert Val([true]) == 1 by {
      assert [true][1..] == [];
    }
    MulOne(Pow2(s));
  }

  // ---- fields ----

  /** A contiguous mask viewed as three pieces. */
  lemma RunSplit(s: nat, k: nat)
    requires s + k <= 32
    ensures Run(s, k) == Zeros(s) + seq(k, i => true) + Zeros(32 - s - k)
  {}

  /** Masking a word with a contiguous mask keeps the field's bits alone. */
  lemma AndRunSplit(w: Word, m: Word)
    requires m != Zero && Contiguous(m)
    ensures LowIdx(m) + Width(m) <= 32
    ensures And(w, m) == Zeros(LowIdx(m)) + w[LowIdx(m)..LowIdx(m) + Width(m)]
      + Zeros(32 - LowIdx(m) - Width(m))
  {
    var s, k := LowIdx(m), Width(m);
    var x := And(w, m);
    ContiguousBits(m);
    assert x[s..s + k] == w[s..s + k];
    ClearOutside(x, s, k);
  }

  /** A sequence clear below `s` and from `s + k` on is its middle piece
      padded with zeros. */
  lemma ClearOutside(x: seq<bool>, s: nat, k: nat)
    requires s + k <= |x|
    requires forall i :: 0 <= i < s ==> !x[i]
    requires forall i :: s + k <= i < |x| ==> !x[i]
    ensures x == Zeros(s) + x[s..s + k] + Zeros(|x| - s - k)
  {
    assert x[..s] == Zeros(s);
    assert x[s + k..] == Zeros(|x| - s - k);
    assert x == x[..s] + x[s..s + k] + x[s + k..];
  }

  /** Value of a piece placed at bit `s` of an otherwise clear word. */
  lemma ValOfPlaced(x: seq<bool>, s: nat, t: nat)
    ensures Val(Zeros(s) + x + Zeros(t)) == Mul(Pow2(s), Val(x))
  {
    ValConcat(Zeros(s) + x, Zeros(t));
    ValConcat(Zeros(s), x);
    ValZeros(s);
    ValZeros(t);
    MulZero(Pow2(s + |x|));
  }

  /** For a contiguous mask of width `k` at bit `s`, reading the field is
      reading bits `s` to `s + k - 1` of the word. */
  lemma FieldGetSlice(w: Word, m: Word)
    requires m != Zero && Contiguous(m)
    ensures LowIdx(m) + Width(m) <= 32
    ensures FieldGet(w, m) == Val(w[LowIdx(m)..LowIdx(m) + Width(m)])
  {
    var s, k := LowIdx(m), Width(m);
    AndRunSplit(w, m);
    ValOfPlaced(w[s..s + k], s, 32 - s - k);
    LowBitValue(m);
    MulDivCancel(Pow2(s), Val(w[s..s + k]));
  }

  /** Largest value of a contiguous field of width `k`: `2^k - 1`. */
  lemma FieldMaxOfRun(m: Word)
    requires m != Zero && Contiguous(m)
    ensures FieldMax(m) == Pow2(Width(m)) - 1
  {
    var s, k := LowIdx(m), Width(m);
    var p := Pow2(s);
    assert Val(LowBit(m)) == p by {
      LowBitValue(m);
    }
    assert Val(m) == Mul(p, Pow2(k) - 1) by {
      ContiguousIsRun(m);
      ValOfRun(s, k);
    }
    MulDivCancel(p, Pow2(k) - 1);
  }

  lemma ValOfRun(s: nat, k: nat)
    requires s + k <= 32
    ensures Val(Run(s, k)) == Mul(Pow2(s), Pow2(k) - 1)
  {
    RunSplit(s, k);
    ValOfPlaced(seq(k, i => true), s, 32 - s - k);
    ValOnes(k);
  }

  lemma Pow2Of32()
    ensures Pow2(32) == 0x1_0000_0000
  {
    assert Pow2(1) == 2;
    assert Pow2(2) == 4;
    assert Pow2(3) == 8;
    assert Pow2(4) == 16;
    assert Pow2(5) == 32;
    assert Pow2(6) == 64;
    assert Pow2(7) == 128;
    assert Pow2(8) == 256;
    assert Pow2(9) == 512;
    assert Pow2(10) == 1024;
    assert Pow2(11) == 2048;
    assert Pow2(12) == 4096;
    assert Pow2(13) == 8192;
    assert Pow2(14) == 16384;
    assert Pow2(15) == 32768;
    assert Pow2(16) == 65536;
    assert Pow2(17) == 131072;
    assert Pow2(18) == 262144;
    assert Pow2(19) == 524288;
    assert Pow2(20) == 1048576;
    assert Pow2(21) == 2097152;
    assert Pow2(22) == 4194304;
    assert Pow2(23) == 8388608;
    assert Pow2(24) == 16777216;
    assert Pow2(25) == 33554432;
    assert Pow2(26) == 67108864;
    assert Pow2(27) == 134217728;
    assert Pow2(28) == 268435456;
    assert Pow2(29) == 536870912;
    assert Pow2(30) == 1073741824;
    assert Pow2(31) == 2147483648;
    assert Pow2(32) == 4294967296;
  }

  lemma ModSmall(a: nat, d: nat)
    requires a < d
    ensures a % d == a
  {
    DivModUnique(a, d, 0, a);
  }

  lemma {:induction false} Pow2Mono(a: nat, b: nat)
    requires a <= b
    ensures Pow2(a) <= Pow2(b)
    decreases b
  {
    if a < b {
      Pow2Mono(a, b - 1);
    }
  }

  /** A contiguous field of width `k` offers `2^k` values, which the u32
      count holds when `k < 32` and wraps to 0 when `k == 32`. */
  lemma FieldCountOfRun(m: Word)
    requires m != Zero && Contiguous(m)
    ensures Width(m) < 32 ==> FieldCount(m) == Pow2(Width(m))
    ensures Width(m) == 32 ==> FieldCount(m) == 0
  {
    FieldMaxOfRun(m);
    CountOfMax(FieldMax(m), Width(m));
  }

  /** `FieldCountOfRun` for any mask. */
  lemma FieldCountCases(m: Word)
    ensures m != Zero && Contiguous(m) && Width(m) < 32 ==> FieldCount(m) == Pow2(Width(m))
    ensures m != Zero && Contiguous(m) && Width(m) == 32 ==> FieldCount(m) == 0
  {
    if m != Zero && Contiguous(m) {
      FieldCountOfRun(m);
    }
  }

  /** A usable field offers at least one value. */
  lemma FieldCountPositive(m: Word)
    requires FieldMask(m)
    ensures FieldCount(m) >= 1
  {
    FieldCountCases(m);
  }

  /** `(2^k - 1) + 1` in u32 arithmetic. */
  lemma CountOfMax(f: int, k: nat)
    requires k <= 32 && f == Pow2(k) - 1
    ensures k < 32 ==> (f + 1) % 0x1_0000_0000 == Pow2(k)
    ensures k == 32 ==> (f + 1) % 0x1_0000_0000 == 0
  {
    Pow2Of32();
    if k < 32 {
      Pow2Mono(k + 1, 32);
      ModSmall(Pow2(k), 0x1_0000_0000);
    } else {
      DivModUnique(Pow2(32), 0x1_0000_0000, 1, 0);
    }
  }

  /** A field never reads back a value outside its range. */
  lemma FieldValueBound(w: Word, m: Word)
    requires m != Zero && Contiguous(m)
    ensures FieldGet(w, m) < Pow2(Width(m))
  {
    FieldGetSlice(w, m);
    ValBound(w[LowIdx(m)..LowIdx(m) + Width(m)]);
  }

  /** A field read depends only on the bits under its mask. */
  lemma FieldGetMasked(w1: Word, w2: Word, m: Word)
    requires m != Zero
    requires forall i :: 0 <= i < 32 && m[i] ==> w1[i] == w2[i]
    ensures FieldGet(w1, m) == FieldGet(w2, m)
  {
    assert And(w1, m) == And(w2, m);
  }

  /** The word written for a value that fits a contiguous field holds the
      value's bits under the mask and nothing elsewhere. */
  lemma FieldBitsShape(m: Word, v: nat)
    requires m != Zero && Contiguous(m) && v < Pow2(Width(m))
    ensures LowIdx(m) + Width(m) <= 32
    ensures FieldBits(m, v) == Zeros(LowIdx(m)) + (FromNat(v, Width(m))
      + Zeros(32 - LowIdx(m) - Width(m)))
  {
    var s, k := LowIdx(m), Width(m);
    LowBitValue(m);
    assert FieldBits(m, v) == FromNat(Mul(v, Pow2(s)), 32);
    FromNatPlaced(v, s, k);
  }

  /** The 32 bits of `v * 2^s`, for `v` below `2^k`. */
  lemma FromNatPlaced(v: nat, s: nat, k: nat)
    requires s + k <= 32 && v < Pow2(k)
    ensures FromNat(Mul(v, Pow2(s)), 32) == Zeros(s) + (FromNat(v, k) + Zeros(32 - s - k))
  {
    var t := FromNat(v, 32 - s);
    FromNatShifted(v, s, 32);
    FromNatSmall(v, k, 32 - s);
    assert t == FromNat(v, k) + Zeros(32 - s - k);
  }

  /** The bits a field write leaves: the value under the mask, the old word
      elsewhere. */
  lemma FieldWriteBits(w: Word, m: Word, v: nat)
    requires m != Zero && Contiguous(m) && v < Pow2(Width(m))
    ensures LowIdx(m) + Width(m) <= 32
    ensures ClrSetBits(w, m, FieldBits(m, v))[LowIdx(m)..LowIdx(m) + Width(m)] == FromNat(v, Width(m))
    ensures forall i :: 0 <= i < 32 && !m[i] ==> ClrSetBits(w, m, FieldBits(m, v))[i] == w[i]
  {
    var s, k := LowIdx(m), Width(m);
    var b := FieldBits(m, v);
    var w' := ClrSetBits(w, m, b);
    FieldBitsShape(m, v);
    forall i | 0 <= i < k
      ensures w'[s + i] == FromNat(v, k)[i]
    {
      assert m[s + i];
      assert b[s + i] == FromNat(v, k)[i];
    }
    forall i | 0 <= i < 32 && !m[i]
      ensures w'[i] == w[i]
    {
      assert !(s <= i < s + k);
      assert !b[i];
    }
  }

  /** Writing a value that fits a contiguous field and reading that field
      back returns the value, and every bit outside the mask is kept. */
  lemma FieldWriteReadBack(w: Word, m: Word, v: nat)
    requires m != Zero && Contiguous(m) && v < Pow2(Width(m))
    ensures FieldGet(ClrSetBits(w, m, FieldBits(m, v)), m) == v
    ensures forall i :: 0 <= i < 32 && !m[i] ==> ClrSetBits(w, m, FieldBits(m, v))[i] == w[i]
  {
    var w' := ClrSetBits(w, m, FieldBits(m, v));
    FieldWriteBits(w, m, v);
    FieldGetSlice(w', m);
    FromNatVal(v, Width(m));
    ModSmall(v, Pow2(Width(m)));
  }

  // ---- fields as the engine reads them ----

  /** A mask the engine can use as a field: one run of bits (or none), and
      narrower than the word, so that its value count fits a u32. */
  predicate FieldMask(m: Word) {
    Contiguous(m) && Width(m) < 32
  }

  /** The value of field `m` of `w`, or 0 when there is no field (the engine
      treats a zero mask as a field that always reads 0). */
  function FieldRead(w: Word, m: Word): (v: nat)
    requires FieldMask(m)
    ensures v < FieldCount(m)
    ensures m != Zero ==> v == FieldGet(w, m)
  {
    if m == Zero then 0 else
      FieldReadBounds(w, m);
      FieldGet(w, m)
  }

  lemma FieldReadBounds(w: Word, m: Word)
    requires m != Zero && FieldMask(m)
    ensures 0 <= FieldGet(w, m) < FieldCount(m)
  {
    FieldGetSlice(w, m);
    FieldValueBound(w, m);
    FieldCountOfRun(m);
  }

  /** Writing a value below the field's count and reading the field back
      returns the value; the bits outside the mask are those of the old word. */
  lemma FieldReadWrite(w: Word, m: Word, v: nat)
    requires m != Zero && FieldMask(m) && v < FieldCount(m)
    ensures FieldRead(ClrSetBits(w, m, FieldBits(m, v)), m) == v
    ensures forall i :: 0 <= i < 32 && !m[i] ==> ClrSetBits(w, m, FieldBits(m, v))[i] == w[i]
  {
    FieldCountOfRun(m);
    FieldWriteReadBack(w, m, v);
  }

  /** The zero mask is a field with a single value. */
  lemma ZeroField()
    ensures FieldMask(Zero) && FieldCount(Zero) == 1
  {
    LowIdxFromZero(0);
  }

  lemma {:induction false} LowIdxFromZero(i: nat)
    requires i <= 32
    ensures LowIdxFrom(Zero, i) == 32
    decreases 32 - i
  {
    if i < 32 {
      LowIdxFromZero(i + 1);
    }
  }

  /** `BIT(p)` is a field of two values whose value is bit `p` of the word. */
  lemma BitField(w: Word, p: nat)
    requires p < 32
    ensures FieldMask(Bit(p)) && Bit(p) != Zero && FieldCount(Bit(p)) == 2
    ensures FieldRead(w, Bit(p)) == if w[p] then 1 else 0
  {
    RunShape(p, 1);
    FieldCountOfRun(Bit(p));
    FieldGetSlice(w, Bit(p));
    assert w[p..p + 1] == [w[p]];
  }

  /** A field read only sees the bits under its mask. */
  lemma FieldReadFrame(w1: Word, w2: Word, m: Word)
    requires FieldMask(m)
    requires forall i :: 0 <= i < 32 && m[i] ==> w1[i] == w2[i]
    ensures FieldRead(w1, m) == FieldRead(w2, m)
  {
    if m != Zero {
      FieldGetMasked(w1, w2, m);
    }
  }
}
