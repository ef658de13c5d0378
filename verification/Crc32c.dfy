/** Castagnoli CRC-32C (section 13.1 of RFC 7143) and the error bursts it cannot miss. */
module Crc32c {
  import opened Bytes

  // Exclusive or under a name, so that proofs can rewrite it without bit-blasting.
  function Xor(a: bv32, b: bv32): bv32 { a ^ b }

  function Half(s: bv32): bv32 { s >> 1 }

  function Tap(s: bv32): bv32 { if s & 1 == 1 then 0x82f6_3b78 else 0 }

  // One bit of the reflected register.
  function Shift(s: bv32): bv32 { Xor(Half(s), Tap(s)) }

  function Shifts(s: bv32, n: nat): bv32 {
    if n == 0 then s else Shift(Shifts(s, n - 1))
  }

  function Double(x: bv32): bv32 { x << 1 }

  // The last `n` binary digits of `b`.
  function Bits(b: nat, n: nat): bv32 {
    if n == 0 then 0 else Xor(Double(Bits(b / 2, n - 1)), if b % 2 == 1 then 1 else 0)
  }

  // A byte widened to the register.
  function Word(b: byte): bv32 { Bits(b, 8) }

  // The register after absorbing `bytes`.
  function Feed(s: bv32, bytes: seq<byte>): bv32 {
    if bytes == [] then s
    else Shifts(Xor(Feed(s, bytes[..|bytes| - 1]), Word(bytes[|bytes| - 1])), 8)
  }

  function Complement(s: bv32): bv32 { !s }

  function Checksum(bytes: seq<byte>): bv32 { Complement(Feed(0xffff_ffff, bytes)) }

  lemma MaskedTap(s: bv32)
    ensures 0x82f6_3b78 & (0 - (s & 1)) == Tap(s)
  {
    assert s & 1 == 0 || s & 1 == 1;
  }

  class Calculator {
    var register: bv32

    constructor ()
      ensures register == 0xffff_ffff
    {
      register := 0xffff_ffff;
    }

    method Update(bytes: seq<byte>)
      modifies this
      ensures register == Feed(old(register), bytes)
    {
      for i := 0 to |bytes|
        invariant register == Feed(old(register), bytes[..i])
      {
        register := Xor(register, Word(bytes[i]));
        ghost var start := register;
        for k := 0 to 8
          invariant register == Shifts(start, k)
        {
          MaskedTap(register);
          register := Xor(Half(register), 0x82f6_3b78 & (0 - (register & 1)));
        }
        assert bytes[..i + 1][..i] == bytes[..i];
      }
      assert bytes[..|bytes|] == bytes;
    }

    method Finalize() returns (crc: bv32)
      ensures crc == Complement(register)
    {
      crc := Complement(register);
    }
  }

  method Compute(bytes: seq<byte>) returns (crc: nat)
    ensures crc == Crc(bytes)
  {
    var calculator := new Calculator();
    calculator.Update(bytes);
    var register := calculator.Finalize();
    crc := Value(register);
  }

  // ---------- The register as a vector space over bits ----------

  lemma HalfXor(a: bv32, b: bv32)
    ensures Half(Xor(a, b)) == Xor(Half(a), Half(b))
  {
  }

  lemma TapXor(a: bv32, b: bv32)
    ensures Tap(Xor(a, b)) == Xor(Tap(a), Tap(b))
  {
  }

  lemma XorAssociative(a: bv32, b: bv32, c: bv32)
    ensures Xor(Xor(a, b), c) == Xor(a, Xor(b, c))
  {
  }

  lemma XorCommutative(a: bv32, b: bv32)
    ensures Xor(a, b) == Xor(b, a)
  {
  }

  lemma XorSwap(a: bv32, b: bv32, c: bv32, d: bv32)
    ensures Xor(Xor(a, b), Xor(c, d)) == Xor(Xor(a, c), Xor(b, d))
  {
    calc {
      Xor(Xor(a, b), Xor(c, d));
      { XorAssociative(a, b, Xor(c, d)); XorAssociative(b, c, d); }
      Xor(a, Xor(Xor(b, c), d));
      { XorCommutative(b, c); XorAssociative(c, b, d); }
      Xor(a, Xor(c, Xor(b, d)));
      { XorAssociative(a, c, Xor(b, d)); }
      Xor(Xor(a, c), Xor(b, d));
    }
  }

  lemma XorCancels(x: bv32, y: bv32, z: bv32)
    requires Xor(x, z) == Xor(y, z)
    ensures x == y
  {
  }

  lemma ShiftLinear(x: bv32, y: bv32)
    ensures Shift(Xor(x, y)) == Xor(Shift(x), Shift(y))
  {
    HalfXor(x, y);
    TapXor(x, y);
    XorSwap(Half(x), Half(y), Tap(x), Tap(y));
  }

  // The polynomial's top bit records the bit shifted out, so no two registers merge.
  lemma ShiftInjective(x: bv32, y: bv32)
    requires Shift(x) == Shift(y)
    ensures x == y
  {
  }

  lemma {:induction false} ShiftsLinear(x: bv32, y: bv32, n: nat)
    ensures Shifts(Xor(x, y), n) == Xor(Shifts(x, n), Shifts(y, n))
  {
    if n > 0 {
      ShiftsLinear(x, y, n - 1);
      ShiftLinear(Shifts(x, n - 1), Shifts(y, n - 1));
    }
  }

  lemma {:induction false} ShiftsInjective(x: bv32, y: bv32, n: nat)
    requires Shifts(x, n) == Shifts(y, n)
    ensures x == y
  {
    if n > 0 {
      ShiftInjective(Shifts(x, n - 1), Shifts(y, n - 1));
      ShiftsInjective(x, y, n - 1);
    }
  }

  lemma {:induction false} ShiftsAdd(s: bv32, m: nat, n: nat)
    ensures Shifts(Shifts(s, m), n) == Shifts(s, m + n)
  {
    if n > 0 {
      ShiftsAdd(s, m, n - 1);
    }
  }

  // ---------- Absorbing bytes ----------

  lemma {:induction false} FeedConcat(s: bv32, a: seq<byte>, b: seq<byte>)
    ensures Feed(s, a + b) == Feed(Feed(s, a), b)
  {
    if b == [] {
      assert a + b == a;
    } else {
      assert (a + b)[..|a + b| - 1] == a + b[..|b| - 1];
      FeedConcat(s, a, b[..|b| - 1]);
    }
  }

  lemma {:induction false} FeedInjectiveInRegister(x: bv32, y: bv32, bytes: seq<byte>)
    requires Feed(x, bytes) == Feed(y, bytes)
    ensures x == y
  {
    if bytes != [] {
      var init, last := bytes[..|bytes| - 1], bytes[|bytes| - 1];
      ShiftsInjective(Xor(Feed(x, init), Word(last)), Xor(Feed(y, init), Word(last)), 8);
      XorCancels(Feed(x, init), Feed(y, init), Word(last));
      FeedInjectiveInRegister(x, y, init);
    }
  }

  function Raise(x: bv32): bv32 {
    Double(Double(Double(Double(Double(Double(Double(Double(x))))))))
  }

  // A little-endian word; only words of at most four bytes are used.
  function Pack(w: seq<byte>): bv32 {
    if w == [] then 0 else Xor(Word(w[0]), Raise(Pack(w[1..])))
  }

  // A clear low bit is only shifted.
  lemma DropOneShift(x: bv32, n: nat)
    requires x <= 0x7fff_ffff
    ensures Shifts(Double(x), n + 1) == Shifts(x, n)
  {
    assert Shift(Double(x)) == x;
    assert Shifts(Double(x), 0) == Double(x);
    assert Shifts(Double(x), 1) == Shift(Shifts(Double(x), 0));
    ShiftsAdd(Double(x), 1, n);
  }

  lemma BitsStepFits(x: bv32, digit: bv32)
    requires digit <= 1
    ensures x == 0 ==> Xor(Double(x), digit) <= 0x1
    ensures x <= 0x1 ==> Xor(Double(x), digit) <= 0x3
    ensures x <= 0x3 ==> Xor(Double(x), digit) <= 0x7
    ensures x <= 0x7 ==> Xor(Double(x), digit) <= 0xf
    ensures x <= 0xf ==> Xor(Double(x), digit) <= 0x1f
    ensures x <= 0x1f ==> Xor(Double(x), digit) <= 0x3f
    ensures x <= 0x3f ==> Xor(Double(x), digit) <= 0x7f
    ensures x <= 0x7f ==> Xor(Double(x), digit) <= 0xff
  {
  }

  lemma {:induction false} BitsFit(b: nat, n: nat)
    requires n <= 8
    ensures n == 0 ==> Bits(b, n) == 0
    ensures n <= 1 ==> Bits(b, n) <= 0x1
    ensures n <= 2 ==> Bits(b, n) <= 0x3
    ensures n <= 3 ==> Bits(b, n) <= 0x7
    ensures n <= 4 ==> Bits(b, n) <= 0xf
    ensures n <= 5 ==> Bits(b, n) <= 0x1f
    ensures n <= 6 ==> Bits(b, n) <= 0x3f
    ensures n <= 7 ==> Bits(b, n) <= 0x7f
    ensures Bits(b, n) <= 0xff
  {
    if n > 0 {
      BitsFit(b / 2, n - 1);
      BitsStepFits(Bits(b / 2, n - 1), if b % 2 == 1 then 1 else 0);
    }
  }

  lemma WordFits(b: byte)
    ensures Word(b) <= 0xff
  {
    BitsFit(b, 8);
  }

  lemma RaiseIsShift(x: bv32)
    ensures Raise(x) == x << 8
  {
  }

  lemma PackStepFits(a: bv32, x: bv32)
    requires a <= 0xff
    ensures x == 0 ==> Xor(a, Raise(x)) <= 0xff
    ensures x <= 0xff ==> Xor(a, Raise(x)) <= 0xffff
    ensures x <= 0xffff ==> Xor(a, Raise(x)) <= 0xff_ffff
  {
    RaiseIsShift(x);
  }

  lemma PackFits(w: seq<byte>)
    requires |w| <= 3
    ensures Pack(w) <= 0xff_ffff
    ensures |w| <= 2 ==> Pack(w) <= 0xffff
    ensures |w| <= 1 ==> Pack(w) <= 0xff
    ensures |w| == 0 ==> Pack(w) == 0
  {
    if w != [] {
      PackFits(w[1..]);
      WordFits(w[0]);
      PackStepFits(Word(w[0]), Pack(w[1..]));
    }
  }

  lemma RaiseSinks(x: bv32)
    requires x <= 0xff_ffff
    ensures Shifts(Raise(x), 8) == x
  {
    var x1 := Double(x);
    var x2 := Double(x1);
    var x3 := Double(x2);
    var x4 := Double(x3);
    var x5 := Double(x4);
    var x6 := Double(x5);
    var x7 := Double(x6);
    DoublesFit(x);
    DropOneShift(x7, 7);
    DropOneShift(x6, 6);
    DropOneShift(x5, 5);
    DropOneShift(x4, 4);
    DropOneShift(x3, 3);
    DropOneShift(x2, 2);
    DropOneShift(x1, 1);
    DropOneShift(x, 0);
  }

  // Seven doublings of a 24-bit word stay below the top bit.
  lemma DoublesFit(x: bv32)
    requires x <= 0xff_ffff
    ensures Double(x) <= 0x7fff_ffff
    ensures Double(Double(x)) <= 0x7fff_ffff
    ensures Double(Double(Double(x))) <= 0x7fff_ffff
    ensures Double(Double(Double(Double(x)))) <= 0x7fff_ffff
    ensures Double(Double(Double(Double(Double(x))))) <= 0x7fff_ffff
    ensures Double(Double(Double(Double(Double(Double(x)))))) <= 0x7fff_ffff
    ensures Double(Double(Double(Double(Double(Double(Double(x))))))) <= 0x7fff_ffff
  {
  }

  // Absorbing up to four bytes one by one is absorbing them as one word.
  lemma {:induction false} FeedIsShiftedPack(s: bv32, w: seq<byte>)
    requires |w| <= 4
    ensures Feed(s, w) == Shifts(Xor(s, Pack(w)), 8 * |w|)
    decreases |w|
  {
    if w == [] {
      XorZero(s);
    } else {
      var b, t := w[0], w[1..];
      assert w == [b] + t;
      FeedConcat(s, [b], t);
      FeedOne(s, b);
      var sb := Xor(s, Word(b));
      FeedIsShiftedPack(Shifts(sb, 8), t);
      PackFits(t);
      RaiseSinks(Pack(t));
      ShiftsLinear(sb, Raise(Pack(t)), 8);
      XorAssociative(s, Word(b), Raise(Pack(t)));
      ShiftsAdd(Xor(s, Pack(w)), 8, 8 * |t|);
    }
  }

  lemma FeedOne(s: bv32, b: byte)
    ensures Feed(s, [b]) == Shifts(Xor(s, Word(b)), 8)
  {
    assert [b][..0] == [];
  }

  lemma XorZero(x: bv32)
    ensures Xor(x, 0) == x
  {
  }

  lemma PeelLowByte(a: bv32, x: bv32, b: bv32, y: bv32)
    requires a <= 0xff && b <= 0xff && x <= 0xff_ffff && y <= 0xff_ffff
    requires Xor(a, Raise(x)) == Xor(b, Raise(y))
    ensures a == b && x == y
  {
    RaiseIsShift(x);
    RaiseIsShift(y);
  }

  lemma {:induction false} PackInjective(v: seq<byte>, w: seq<byte>)
    requires |v| == |w| <= 4
    requires Pack(v) == Pack(w)
    ensures v == w
  {
    if v != [] {
      WordFits(v[0]);
      WordFits(w[0]);
      PackFits(v[1..]);
      PackFits(w[1..]);
      PeelLowByte(Word(v[0]), Pack(v[1..]), Word(w[0]), Pack(w[1..]));
      WordInjective(v[0], w[0]);
      PackInjective(v[1..], w[1..]);
      assert v == [v[0]] + v[1..] && w == [w[0]] + w[1..];
    }
  }

  lemma PeelLowBit(x: bv32, d: bv32, y: bv32, e: bv32)
    requires x <= 0xff && y <= 0xff && d <= 1 && e <= 1
    requires Xor(Double(x), d) == Xor(Double(y), e)
    ensures x == y && d == e
  {
  }

  function Pow2(n: nat): nat {
    if n == 0 then 1 else 2 * Pow2(n - 1)
  }

  lemma {:induction false} BitsInjective(a: nat, b: nat, n: nat)
    requires n <= 8 && a < Pow2(n) && b < Pow2(n)
    requires Bits(a, n) == Bits(b, n)
    ensures a == b
  {
    if n > 0 {
      BitsFit(a / 2, n - 1);
      BitsFit(b / 2, n - 1);
      PeelLowBit(Bits(a / 2, n - 1), if a % 2 == 1 then 1 else 0, Bits(b / 2, n - 1), if b % 2 == 1 then 1 else 0);
      BitsInjective(a / 2, b / 2, n - 1);
    }
  }

  lemma WordInjective(a: byte, b: byte)
    requires Word(a) == Word(b)
    ensures a == b
  {
    assert Pow2(2) == 4 && Pow2(4) == 16 && Pow2(6) == 64 && Pow2(8) == 256;
    BitsInjective(a, b, 8);
  }

  // Within one four-byte window the register determines the bytes.
  lemma FeedInjectiveInWindow(s: bv32, v: seq<byte>, w: seq<byte>)
    requires |v| == |w| <= 4
    requires Feed(s, v) == Feed(s, w)
    ensures v == w
  {
    FeedIsShiftedPack(s, v);
    FeedIsShiftedPack(s, w);
    ShiftsInjective(Xor(s, Pack(v)), Xor(s, Pack(w)), 8 * |v|);
    XorCommutative(s, Pack(v));
    XorCommutative(s, Pack(w));
    XorCancels(Pack(v), Pack(w), s);
    PackInjective(v, w);
  }

  lemma FeedDetectsWindow(s: bv32, prefix: seq<byte>, v: seq<byte>, w: seq<byte>, suffix: seq<byte>)
    requires |v| == |w| <= 4 && v != w
    ensures Feed(s, prefix + v + suffix) != Feed(s, prefix + w + suffix)
  {
    FeedConcat(s, prefix + v, suffix);
    FeedConcat(s, prefix + w, suffix);
    FeedConcat(s, prefix, v);
    FeedConcat(s, prefix, w);
    if Feed(s, prefix + v + suffix) == Feed(s, prefix + w + suffix) {
      FeedInjectiveInRegister(Feed(s, prefix + v), Feed(s, prefix + w), suffix);
      FeedInjectiveInWindow(Feed(s, prefix), v, w);
    }
  }

  // `b` is `a` with some of the bytes in [from, from + 4) replaced.
  predicate Burst(a: seq<byte>, b: seq<byte>, from: nat) {
    |a| == |b| && a != b &&
    forall i :: 0 <= i < |a| && !(from <= i < from + 4) ==> a[i] == b[i]
  }

  // Any change confined to four consecutive bytes, at any place in a string of any length,
  // changes the checksum.
  lemma BurstChangesChecksum(a: seq<byte>, b: seq<byte>, from: nat)
    requires Burst(a, b, from)
    ensures Checksum(a) != Checksum(b)
  {
    var lo := if from < |a| then from else |a|;
    var hi := if from + 4 < |a| then from + 4 else |a|;
    assert a == a[..lo] + a[lo..hi] + a[hi..];
    assert b == a[..lo] + b[lo..hi] + a[hi..];
    FeedDetectsWindow(0xffff_ffff, a[..lo], a[lo..hi], b[lo..hi], a[hi..]);
    ComplementInjective(Feed(0xffff_ffff, a), Feed(0xffff_ffff, b));
  }

  lemma ComplementInjective(x: bv32, y: bv32)
    requires x != y
    ensures Complement(x) != Complement(y)
  {
    hide Complement;
    ComplementUndoesItself(x);
    ComplementUndoesItself(y);
  }

  lemma ComplementUndoesItself(x: bv32)
    ensures Complement(Complement(x)) == x
  {
  }

  // ---------- The checksum as a number ----------

  function Odd(x: bv32): bool { x & 1 == 1 }

  // The number that the binary digits of `x` write.
  function Value(x: bv32): (v: nat)
    decreases x
  {
    if x == 0 then 0 else assert Half(x) < x; 2 * Value(Half(x)) + if Odd(x) then 1 else 0
  }

  // `x` has at most `n` binary digits.
  predicate Short(x: bv32, n: nat)
    decreases n
  {
    if n == 0 then x == 0 else Short(Half(x), n - 1)
  }

  lemma Halved(x: bv32)
    ensures Xor(Double(Half(x)), if Odd(x) then 1 else 0) == x
  {
  }

  lemma BitsOfPair(v: nat, odd: bool, n: nat)
    ensures Bits(2 * v + if odd then 1 else 0, n + 1) == Xor(Double(Bits(v, n)), if odd then 1 else 0)
  {
    hide Xor, Double;
    var b := 2 * v + if odd then 1 else 0;
    assert b / 2 == v && (b % 2 == 1 <==> odd);
  }

  lemma {:induction false} ShortValue(x: bv32, n: nat)
    requires Short(x, n)
    ensures Value(x) < Pow2(n)
    decreases n
  {
    if n > 0 {
      ShortValue(Half(x), n - 1);
    }
  }

  lemma {:induction false} BitsOfValue(x: bv32, n: nat)
    requires Short(x, n)
    ensures Bits(Value(x), n) == x
    decreases n
  {
    if n > 0 {
      BitsOfValue(Half(x), n - 1);
      BitsOfPair(Value(Half(x)), Odd(x), n - 1);
      Halved(x);
    }
  }

  function Lower(x: bv32): bv32 {
    Half(Half(Half(Half(Half(Half(Half(Half(x))))))))
  }

  lemma LowerIsShift(x: bv32)
    ensures Lower(x) == x >> 8
  {
  }

  lemma ShortByByte(x: bv32, n: nat)
    requires Short(Lower(x), n)
    ensures Short(x, n + 8)
  {
    var x1 := Half(x);
    var x2 := Half(x1);
    var x3 := Half(x2);
    var x4 := Half(x3);
    var x5 := Half(x4);
    var x6 := Half(x5);
    var x7 := Half(x6);
    assert Short(x7, n + 1) && Short(x6, n + 2) && Short(x5, n + 3) && Short(x4, n + 4);
    assert Short(x3, n + 5) && Short(x2, n + 6) && Short(x1, n + 7);
  }

  lemma LoweredAway(x: bv32)
    ensures Lower(Lower(Lower(Lower(x)))) == 0
  {
    LowerIsShift(x);
    LowerIsShift(Lower(x));
    LowerIsShift(Lower(Lower(x)));
    LowerIsShift(Lower(Lower(Lower(x))));
  }

  lemma AllShort(x: bv32)
    ensures Short(x, 32)
  {
    LoweredAway(x);
    ShortByByte(Lower(Lower(Lower(x))), 0);
    ShortByByte(Lower(Lower(x)), 8);
    ShortByByte(Lower(x), 16);
    ShortByByte(x, 24);
  }

  lemma RegisterWidth()
    ensures Pow2(32) == U32_MAX + 1
  {
    assert Pow2(8) == 256;
    assert Pow2(16) == 65536;
    assert Pow2(24) == 65536 * 256;
  }

  // The checksum as the `u32` the formats store.
  function Crc(bytes: seq<byte>): (c: nat)
    ensures c <= U32_MAX
  {
    AllShort(Checksum(bytes));
    ShortValue(Checksum(bytes), 32);
    RegisterWidth();
    Value(Checksum(bytes))
  }

  // The number determines the register.
  lemma RegisterOfCrc(bytes: seq<byte>)
    ensures Bits(Crc(bytes), 32) == Checksum(bytes)
  {
    AllShort(Checksum(bytes));
    BitsOfValue(Checksum(bytes), 32);
  }

  lemma BurstChangesCrc(a: seq<byte>, b: seq<byte>, from: nat)
    requires Burst(a, b, from)
    ensures Crc(a) != Crc(b)
  {
    BurstChangesChecksum(a, b, from);
    RegisterOfCrc(a);
    RegisterOfCrc(b);
  }
}
