/**
 * The four-byte differences that the last covered bytes and the stored CRC-32C after them can
 * suffer together without the checksum noticing: a short list for each way the window can lie.
 */
module CrcSlips {
  import opened Bytes
  import opened Crc32c
  import opened CrcPowers
  import opened CrcStraddle

  // `d` falls on the last `k` covered bytes, which `z` more covered bytes follow, and on the
  // first `4 - k` bytes of the stored checksum; the two differences agree.
  predicate Unnoticed(d: seq<byte>, k: nat, z: nat)
    requires |d| == 4 && k <= 4
  {
    Agree(d[k..] + Zeros(k), d[..k], 8 * (k + z))
  }

  // ---------- Words of literal bytes ----------

  function Digits(odd3: bool, odd2: bool, odd1: bool, odd0: bool): bv32 {
    (if odd3 then 8 else 0) ^ (if odd2 then 4 else 0) ^ (if odd1 then 2 else 0) ^ (if odd0 then 1 else 0)
  }

  function Nibble(i: nat): bv32 {
    Digits(i / 2 / 2 / 2 % 2 == 1, i / 2 / 2 % 2 == 1, i / 2 % 2 == 1, i % 2 == 1)
  }

  lemma BitsOfNibble(i: nat)
    ensures Bits(i, 4) == Nibble(i)
  {
    assert Bits(i / 2 / 2 / 2 / 2, 0) == 0;
    assert Bits(i / 2 / 2 / 2, 1) == if i / 2 / 2 / 2 % 2 == 1 then 1 else 0;
    assert Bits(i / 2 / 2, 2) == Xor(Double(Bits(i / 2 / 2 / 2, 1)), if i / 2 / 2 % 2 == 1 then 1 else 0);
    assert Bits(i / 2, 3) == Xor(Double(Bits(i / 2 / 2, 2)), if i / 2 % 2 == 1 then 1 else 0);
  }

  function Byte(b: byte): bv32 {
    Xor(Double(Double(Double(Double(Nibble(b / 16))))), Nibble(b % 16))
  }

  lemma FourDoubles(x: bv32)
    ensures Doubles(x, 4) == Double(Double(Double(Double(x))))
  {
    hide Double;
    assert Doubles(x, 0) == x && Doubles(x, 1) == Double(Doubles(x, 0)) && Doubles(x, 2) == Double(Doubles(x, 1));
    assert Doubles(x, 3) == Double(Doubles(x, 2)) && Doubles(x, 4) == Double(Doubles(x, 3));
  }

  lemma WordOfByte(b: byte)
    ensures Word(b) == Byte(b)
  {
    hide Double, Xor, Nibble;
    assert Pow2(2) == 4 && Pow2(4) == 16;
    assert b / 16 * 16 + b % 16 == b;
    BitsOfSplit(b / 16, b % 16, 4, 4);
    BitsOfNibble(b / 16);
    BitsOfNibble(b % 16);
    FourDoubles(Nibble(b / 16));
  }

  lemma LowNibbles()
    ensures Nibble(0) == 0 && Nibble(1) == 1 && Nibble(2) == 2 && Nibble(3) == 3
    ensures Nibble(4) == 4 && Nibble(5) == 5 && Nibble(6) == 6 && Nibble(7) == 7
  {
  }

  lemma HighNibbles()
    ensures Nibble(8) == 8 && Nibble(9) == 9 && Nibble(10) == 10 && Nibble(11) == 11
    ensures Nibble(12) == 12 && Nibble(13) == 13 && Nibble(14) == 14 && Nibble(15) == 15
  {
  }

  function Join(a: bv32, b: bv32, c: bv32, d: bv32): bv32 { a ^ (b << 8) ^ (c << 16) ^ (d << 24) }

  lemma PackOfFour(a: byte, b: byte, c: byte, d: byte)
    ensures Pack([a, b, c, d]) == Join(Word(a), Word(b), Word(c), Word(d))
  {
    hide Word, Raise;
    assert [d][1..] == [] && [c, d][1..] == [d] && [b, c, d][1..] == [c, d] && [a, b, c, d][1..] == [b, c, d];
    RaiseIsShift(Pack([]));
    RaiseIsShift(Pack([d]));
    RaiseIsShift(Pack([c, d]));
    RaiseIsShift(Pack([b, c, d]));
  }

  // ---------- Reading one digit off a sum ----------

  function Down16(x: bv32): bv32 { x >> 16 }

  function Down8(x: bv32): bv32 { x >> 8 }

  function Down4(x: bv32): bv32 { x >> 4 }

  function Down2(x: bv32): bv32 { x >> 2 }

  lemma Down16Xor(x: bv32, y: bv32)
    ensures Down16(Xor(x, y)) == Xor(Down16(x), Down16(y))
  {
  }

  lemma Down8Xor(x: bv32, y: bv32)
    ensures Down8(Xor(x, y)) == Xor(Down8(x), Down8(y))
  {
  }

  lemma Down4Xor(x: bv32, y: bv32)
    ensures Down4(Xor(x, y)) == Xor(Down4(x), Down4(y))
  {
  }

  lemma Down2Xor(x: bv32, y: bv32)
    ensures Down2(Xor(x, y)) == Xor(Down2(x), Down2(y))
  {
  }

  function Fold16(x: bv32): bv32 { x ^ (x >> 16) }

  function Fold8(x: bv32): bv32 { x ^ (x >> 8) }

  function Fold4(x: bv32): bv32 { x ^ (x >> 4) }

  function Fold2(x: bv32): bv32 { x ^ (x >> 2) }

  function Fold1(x: bv32): bv32 { x ^ (x >> 1) }

  lemma FoldsNamed(x: bv32)
    ensures Fold16(x) == Xor(x, Down16(x)) && Fold8(x) == Xor(x, Down8(x)) && Fold4(x) == Xor(x, Down4(x))
    ensures Fold2(x) == Xor(x, Down2(x)) && Fold1(x) == Xor(x, Half(x))
  {
  }

  lemma FoldsXor(x: bv32, y: bv32)
    ensures Fold16(Xor(x, y)) == Xor(Fold16(x), Fold16(y)) && Fold8(Xor(x, y)) == Xor(Fold8(x), Fold8(y))
    ensures Fold4(Xor(x, y)) == Xor(Fold4(x), Fold4(y)) && Fold2(Xor(x, y)) == Xor(Fold2(x), Fold2(y))
    ensures Fold1(Xor(x, y)) == Xor(Fold1(x), Fold1(y))
  {
    hide Xor, Half, Down16, Down8, Down4, Down2, Fold16, Fold8, Fold4, Fold2, Fold1;
    FoldsNamed(x);
    FoldsNamed(y);
    FoldsNamed(Xor(x, y));
    Down16Xor(x, y);
    Down8Xor(x, y);
    Down4Xor(x, y);
    Down2Xor(x, y);
    HalfXor(x, y);
    XorSwap(x, y, Down16(x), Down16(y));
    XorSwap(x, y, Down8(x), Down8(y));
    XorSwap(x, y, Down4(x), Down4(y));
    XorSwap(x, y, Down2(x), Down2(y));
    XorSwap(x, y, Half(x), Half(y));
  }

  // Whether `x` has an odd number of ones.
  predicate Parity(x: bv32) { Odd(Fold1(Fold2(Fold4(Fold8(Fold16(x)))))) }

  lemma OddXor(x: bv32, y: bv32)
    ensures Odd(Xor(x, y)) == (Odd(x) != Odd(y))
  {
  }

  lemma ParityXor(x: bv32, y: bv32)
    ensures Parity(Xor(x, y)) == (Parity(x) != Parity(y))
  {
    hide Xor, Odd, Fold16, Fold8, Fold4, Fold2, Fold1;
    var x16, y16 := Fold16(x), Fold16(y);
    var x8, y8 := Fold8(x16), Fold8(y16);
    var x4, y4 := Fold4(x8), Fold4(y8);
    var x2, y2 := Fold2(x4), Fold2(y4);
    FoldsXor(x, y);
    FoldsXor(x16, y16);
    FoldsXor(x8, y8);
    FoldsXor(x4, y4);
    FoldsXor(x2, y2);
    OddXor(Fold1(x2), Fold1(y2));
  }

  function And(m: bv32, x: bv32): bv32 { m & x }

  lemma AndXor(m: bv32, x: bv32, y: bv32)
    ensures And(m, Xor(x, y)) == Xor(And(m, x), And(m, y))
  {
  }

  predicate Test(m: bv32, x: bv32) { Parity(And(m, x)) }

  predicate Flip(t: bool, o: bool, b: bool) { t != (o && b) }

  lemma TestOfNothing(m: bv32)
    ensures !Test(m, 0)
  {
    assert And(m, 0) == 0;
  }

  lemma TestOfAdd(m: bv32, rest: bv32, o: bool, c: bv32)
    ensures Test(m, Add(rest, o, c)) == Flip(Test(m, rest), o, Test(m, c))
  {
    hide Xor, And, Parity;
    var picked := if o then c else 0;
    AndXor(m, rest, picked);
    ParityXor(And(m, rest), And(m, picked));
    TestOfNothing(m);
  }

  predicate FlipFour(t: bool, m: bv32, o0: bool, o1: bool, o2: bool, o3: bool,
                     c0: bv32, c1: bv32, c2: bv32, c3: bv32) {
    Flip(Flip(Flip(Flip(t, o3, Test(m, c3)), o2, Test(m, c2)), o1, Test(m, c1)), o0, Test(m, c0))
  }

  lemma TestOfMixFour(m: bv32, rest: bv32, o0: bool, o1: bool, o2: bool, o3: bool,
                      c0: bv32, c1: bv32, c2: bv32, c3: bv32)
    ensures Test(m, MixFour(rest, o0, o1, o2, o3, c0, c1, c2, c3))
            == FlipFour(Test(m, rest), m, o0, o1, o2, o3, c0, c1, c2, c3)
  {
    hide Test, Add, Flip;
    TestOfAdd(m, rest, o3, c3);
    TestOfAdd(m, Add(rest, o3, c3), o2, c2);
    TestOfAdd(m, Add(Add(rest, o3, c3), o2, c2), o1, c1);
    TestOfAdd(m, Add(Add(Add(rest, o3, c3), o2, c2), o1, c1), o0, c0);
  }

  predicate FlipByte(t: bool, m: bv32, x: bv32, c0: bv32, c1: bv32, c2: bv32, c3: bv32,
                     c4: bv32, c5: bv32, c6: bv32, c7: bv32) {
    var high := Flip(Flip(Flip(Flip(t, Has(x, 0x80), Test(m, c7)), Has(x, 0x40), Test(m, c6)),
                          Has(x, 0x20), Test(m, c5)), Has(x, 0x10), Test(m, c4));
    Flip(Flip(Flip(Flip(high, Has(x, 0x8), Test(m, c3)), Has(x, 0x4), Test(m, c2)),
              Has(x, 0x2), Test(m, c1)), Has(x, 0x1), Test(m, c0))
  }

  lemma FlipByteByFours(t: bool, m: bv32, x: bv32, c0: bv32, c1: bv32, c2: bv32, c3: bv32,
                        c4: bv32, c5: bv32, c6: bv32, c7: bv32)
    ensures FlipByte(t, m, x, c0, c1, c2, c3, c4, c5, c6, c7)
            == FlipFour(FlipFour(t, m, Has(x, 0x10), Has(x, 0x20), Has(x, 0x40), Has(x, 0x80), c4, c5, c6, c7),
                        m, Has(x, 0x1), Has(x, 0x2), Has(x, 0x4), Has(x, 0x8), c0, c1, c2, c3)
  {
    hide Flip, Has, Test;
  }

  lemma TestOfMix(m: bv32, rest: bv32, x: bv32, c0: bv32, c1: bv32, c2: bv32, c3: bv32,
                  c4: bv32, c5: bv32, c6: bv32, c7: bv32)
    ensures Test(m, Mix(rest, x, c0, c1, c2, c3, c4, c5, c6, c7))
            == FlipByte(Test(m, rest), m, x, c0, c1, c2, c3, c4, c5, c6, c7)
  {
    hide Test, MixFour, FlipFour, FlipByte, Has;
    var high := MixFour(rest, Has(x, 0x10), Has(x, 0x20), Has(x, 0x40), Has(x, 0x80), c4, c5, c6, c7);
    calc {
      Test(m, Mix(rest, x, c0, c1, c2, c3, c4, c5, c6, c7));
      Test(m, MixFour(high, Has(x, 0x1), Has(x, 0x2), Has(x, 0x4), Has(x, 0x8), c0, c1, c2, c3));
      { TestOfMixFour(m, high, Has(x, 0x1), Has(x, 0x2), Has(x, 0x4), Has(x, 0x8), c0, c1, c2, c3); }
      FlipFour(Test(m, high), m, Has(x, 0x1), Has(x, 0x2), Has(x, 0x4), Has(x, 0x8), c0, c1, c2, c3);
      { TestOfMixFour(m, rest, Has(x, 0x10), Has(x, 0x20), Has(x, 0x40), Has(x, 0x80), c4, c5, c6, c7); }
      FlipFour(FlipFour(Test(m, rest), m, Has(x, 0x10), Has(x, 0x20), Has(x, 0x40), Has(x, 0x80), c4, c5, c6, c7),
               m, Has(x, 0x1), Has(x, 0x2), Has(x, 0x4), Has(x, 0x8), c0, c1, c2, c3);
      { FlipByteByFours(Test(m, rest), m, x, c0, c1, c2, c3, c4, c5, c6, c7); }
      FlipByte(Test(m, rest), m, x, c0, c1, c2, c3, c4, c5, c6, c7);
    }
  }

  lemma LowTestFails(m: bv32, x: bv32)
    requires m <= 0xffff && x & 0xffff == 0
    ensures !Test(m, x)
  {
    assert And(m, x) == 0;
    TestOfNothing(m);
  }

  // ---------- Solving for the differences ----------

  predicate AllBytes(a: bv32, b: bv32, c: bv32, e: bv32) { a <= 0xff && b <= 0xff && c <= 0xff && e <= 0xff }

  lemma JoinInjective(a: bv32, b: bv32, c: bv32, d: bv32, a1: bv32, b1: bv32, c1: bv32, d1: bv32)
    requires AllBytes(a, b, c, d) && AllBytes(a1, b1, c1, d1)
    requires Join(a, b, c, d) == Join(a1, b1, c1, d1)
    ensures a == a1 && b == b1 && c == c1 && d == d1
  {
  }

  lemma SameJoin(a: bv32, b: bv32, c: bv32, d: bv32, a1: bv32, b1: bv32, c1: bv32, d1: bv32)
    requires AllBytes(a, b, c, d) && AllBytes(a1, b1, c1, d1)
    ensures Join(a, b, c, d) == Join(a1, b1, c1, d1) <==> a == a1 && b == b1 && c == c1 && d == d1
  {
    hide Join;
    if Join(a, b, c, d) == Join(a1, b1, c1, d1) {
      JoinInjective(a, b, c, d, a1, b1, c1, d1);
    }
  }

  lemma SameTwo(a: bv32, b: bv32, a1: bv32, b1: bv32)
    requires a <= 0xff && b <= 0xff && a1 <= 0xff && b1 <= 0xff
    ensures Join(a, b, 0, 0) == Join(a1, b1, 0, 0) <==> a == a1 && b == b1
  {
    SameJoin(a, b, 0, 0, a1, b1, 0, 0);
  }

  lemma JoinLeavesOut(a: bv32, b: bv32, c: bv32, d: bv32)
    requires AllBytes(a, b, c, d)
    ensures a == 0 ==> Join(a, b, c, d) & 0xff == 0
    ensures a == 0 && b == 0 ==> Join(a, b, c, d) & 0xffff == 0
    ensures d == 0 ==> Join(a, b, c, d) & 0xff00_0000 == 0
  {
  }

  lemma JoinOfTwo(a: bv32, b: bv32)
    requires a <= 0xff && b <= 0xff
    ensures Join(a, b, 0, 0) <= 0xffff
  {
  }

  lemma LowerOfByte(x: bv32)
    ensures x <= 0xff ==> Lower(x) == 0
    ensures x <= 0xffff ==> Lower(Lower(x)) == 0
  {
    LowerIsShift(x);
    LowerIsShift(Lower(x));
  }

  // A register that reaches `y` in `n` bits reaches what `y` does, `i` bits after it.
  lemma MoveOn(x: bv32, i: nat, n: nat)
    ensures Shifts(Shifts(x, i), n) == Shifts(Shifts(x, n), i)
  {
    hide Shifts;
    ShiftsAdd(x, i, n);
    ShiftsAdd(x, n, i);
  }

  lemma TopByte(x: bv32)
    requires x <= 0xff
    ensures Mix(0, x, 0x0100_0000, 0x0200_0000, 0x0400_0000, 0x0800_0000,
                0x1000_0000, 0x2000_0000, 0x4000_0000, 0x8000_0000) == Join(0, 0, 0, x)
  {
  }

  // Where the checksum moves when a covered byte differs by `x`.
  function Sum8(x: bv32): bv32 {
    Mix(0, x, 0xf26b_8303, 0xe13b_70f7, 0xc79a_971f, 0x8ad9_58cf, 0x105e_c76f, 0x20bd_8ede, 0x417b_1dbc, 0x82f6_3b78)
  }

  lemma Found8(x: bv32)
    requires x <= 0xff && Sum8(x) & 0xff == 0
    ensures x == 0 || x == 0x5d
  {
  }

  lemma Value8()
    ensures Sum8(0x5d) == Join(0, 0x96, 0x0d, 0xee)
  {
  }

  lemma Solve8(a: bv32, b: bv32, c: bv32, e: bv32)
    requires AllBytes(a, b, c, e)
    ensures Join(0, e, c, b) == Sum8(a) <==>
            || (a == 0 && b == 0 && c == 0 && e == 0)
            || (a == 0x5d && b == 0xee && c == 0x0d && e == 0x96)
  {
    hide Join, Sum8;
    JoinLeavesOut(0, e, c, b);
    if Join(0, e, c, b) == Sum8(a) {
      Found8(a);
    }
    NoValue8();
    Value8();
    SameJoin(0, e, c, b, 0, 0, 0, 0);
    SameJoin(0, e, c, b, 0, 0x96, 0x0d, 0xee);
  }

  lemma NoValue8()
    ensures Sum8(0) == Join(0, 0, 0, 0)
  {
  }

  lemma Reaches8(x: bv32)
    requires x <= 0xff
    ensures Shifts(x, 8) == Sum8(x)
  {
    hide Shifts, Mix, Lower;
    LowerOfByte(x);
    ShiftsOfByte(x, 8);
    ShiftsOfZero(0);
    PowersTo8();
  }

  // Where the checksum moves when two covered bytes differ by `x`.
  function Sum16(x: bv32): bv32 {
    Mix(Mix(0, Lower(x), 0xf26b_8303, 0xe13b_70f7, 0xc79a_971f, 0x8ad9_58cf, 0x105e_c76f, 0x20bd_8ede, 0x417b_1dbc,
            0x82f6_3b78),
        x, 0x13a2_9877, 0x2745_30ee, 0x4e8a_61dc, 0x9d14_c3b8, 0x3fc5_f181, 0x7f8b_e302, 0xff17_c604, 0xfbc3_faf9)
  }

  // A mask of the vanishing bits relates the digits of `x` that it leaves.
  lemma Read16(m: bv32, x: bv32)
    requires m <= 0xffff && Sum16(x) & 0xffff == 0
    ensures !FlipByte(FlipByte(false, m, Lower(x), 0xf26b_8303, 0xe13b_70f7, 0xc79a_971f, 0x8ad9_58cf, 0x105e_c76f,
                               0x20bd_8ede, 0x417b_1dbc, 0x82f6_3b78),
                      m, x, 0x13a2_9877, 0x2745_30ee, 0x4e8a_61dc, 0x9d14_c3b8, 0x3fc5_f181, 0x7f8b_e302, 0xff17_c604,
                          0xfbc3_faf9)
  {
    hide Test, Mix, FlipByte, Lower;
    var high := Mix(0, Lower(x), 0xf26b_8303, 0xe13b_70f7, 0xc79a_971f, 0x8ad9_58cf, 0x105e_c76f, 0x20bd_8ede,
                    0x417b_1dbc, 0x82f6_3b78);
    TestOfNothing(m);
    TestOfMix(m, 0, Lower(x), 0xf26b_8303, 0xe13b_70f7, 0xc79a_971f, 0x8ad9_58cf, 0x105e_c76f, 0x20bd_8ede,
              0x417b_1dbc, 0x82f6_3b78);
    TestOfMix(m, high, x, 0x13a2_9877, 0x2745_30ee, 0x4e8a_61dc, 0x9d14_c3b8, 0x3fc5_f181, 0x7f8b_e302, 0xff17_c604,
              0xfbc3_faf9);
    LowTestFails(m, Sum16(x));
  }

  lemma Digits16Part1(x: bv32)
    requires Sum16(x) & 0xffff == 0
    ensures Has(x, 0x1) == Has(Lower(x), 0x80)
    ensures !Has(x, 0x2)
    ensures Has(x, 0x4) == Has(Lower(x), 0x80)
  {
    hide Sum16, Has, Lower;
    Read16(0x6196, x);
    Read16(0x7cd8, x);
    Read16(0x27d3, x);
  }

  lemma Digits16Part2(x: bv32)
    requires Sum16(x) & 0xffff == 0
    ensures Has(x, 0x8) == Has(Lower(x), 0x80)
    ensures !Has(x, 0x10)
    ensures !Has(x, 0x20)
  {
    hide Sum16, Has, Lower;
    Read16(0x2e31, x);
    Read16(0x5c63, x);
    Read16(0x0733, x);
  }

  lemma Digits16Part3(x: bv32)
    requires Sum16(x) & 0xffff == 0
    ensures Has(x, 0x40) == Has(Lower(x), 0x80)
    ensures !Has(x, 0x80)
    ensures !Has(Lower(x), 0x1)
  {
    hide Sum16, Has, Lower;
    Read16(0x6ff0, x);
    Read16(0x6014, x);
    Read16(0x7fdd, x);
  }

  lemma Digits16Part4(x: bv32)
    requires Sum16(x) & 0xffff == 0
    ensures !Has(Lower(x), 0x2)
    ensures !Has(Lower(x), 0x4)
    ensures !Has(Lower(x), 0x8)
  {
    hide Sum16, Has, Lower;
    Read16(0x404f, x);
    Read16(0x3f6b, x);
    Read16(0x7ed6, x);
  }

  lemma Digits16Part5(x: bv32)
    requires Sum16(x) & 0xffff == 0
    ensures Has(Lower(x), 0x10) == Has(Lower(x), 0x80)
    ensures !Has(Lower(x), 0x20)
    ensures !Has(Lower(x), 0x40)
  {
    hide Sum16, Has, Lower;
    Read16(0x23cf, x);
    Read16(0x479f, x);
    Read16(0x30cb, x);
  }

  lemma Found16(x: bv32)
    requires x <= 0xffff && Sum16(x) & 0xffff == 0
    ensures x == 0 || x == 0x904d
  {
    hide Sum16;
    Digits16Part1(x);
    Digits16Part2(x);
    Digits16Part3(x);
    Digits16Part4(x);
    Digits16Part5(x);
  }

  lemma Value16()
    ensures Sum16(0x904d) == Join(0, 0, 0x83, 0xad)
  {
  }

  lemma Solve16(a: bv32, b: bv32, c: bv32, e: bv32)
    requires AllBytes(a, b, c, e)
    ensures Join(0, 0, e, c) == Sum16(Join(a, b, 0, 0)) <==>
            || (a == 0 && b == 0 && c == 0 && e == 0)
            || (a == 0x4d && b == 0x90 && c == 0xad && e == 0x83)
  {
    hide Join, Sum16;
    JoinLeavesOut(0, 0, e, c);
    JoinOfTwo(a, b);
    if Join(0, 0, e, c) == Sum16(Join(a, b, 0, 0)) {
      Found16(Join(a, b, 0, 0));
    }
    NoValue16();
    Joined16();
    SameTwo(a, b, 0x00, 0x00);
    SameTwo(a, b, 0x4d, 0x90);
    Value16();
    SameJoin(0, 0, e, c, 0, 0, 0, 0);
    SameJoin(0, 0, e, c, 0, 0, 0x83, 0xad);
  }

  lemma NoValue16()
    ensures Sum16(0) == Join(0, 0, 0, 0)
  {
  }

  lemma Joined16()
    ensures Join(0, 0, 0, 0) == 0
    ensures Join(0x4d, 0x90, 0, 0) == 0x904d
  {
  }

  lemma Reaches16(x: bv32)
    requires x <= 0xffff
    ensures Shifts(x, 16) == Sum16(x)
  {
    hide Shifts, Mix, Lower;
    LowerOfByte(x);
    ShiftsOfByte(x, 16);
    ShiftsOfByte(Lower(x), 8);
    ShiftsOfZero(0);
    PowersTo8();
    PowersTo16();
  }

  // How three covered bytes must differ to move the last byte of the register by `x`.
  function Sum24(x: bv32): bv32 {
    Mix(0, x, 0x780d_5a4d, 0xf01a_b49a, 0xe5d9_1fc5, 0xce5e_497b, 0x9950_e407, 0x374d_beff, 0x6e9b_7dfe, 0xdd36_fbfc)
  }

  lemma Found24(x: bv32)
    requires x <= 0xff && Sum24(x) & 0xff00_0000 == 0
    ensures x == 0
  {
  }

  lemma Solve24(a: bv32, b: bv32, c: bv32, e: bv32)
    requires AllBytes(a, b, c, e)
    ensures Join(a, b, c, 0) == Sum24(e) <==>
            || (a == 0 && b == 0 && c == 0 && e == 0)
  {
    hide Join, Sum24;
    JoinLeavesOut(a, b, c, 0);
    if Join(a, b, c, 0) == Sum24(e) {
      Found24(e);
    }
    NoValue24();
    SameJoin(a, b, c, 0, 0, 0, 0, 0);
  }

  lemma NoValue24()
    ensures Sum24(0) == Join(0, 0, 0, 0)
  {
  }

  lemma Reaches24(x: bv32)
    requires x <= 0xff
    ensures Shifts(Sum24(x), 24) == Join(0, 0, 0, x)
  {
    hide Shifts, Mix, Join;
    ShiftsOfMix(x, 24, 0x780d_5a4d, 0xf01a_b49a, 0xe5d9_1fc5, 0xce5e_497b, 0x9950_e407, 0x374d_beff, 0x6e9b_7dfe,
                0xdd36_fbfc);
    NoShift(0xdd36_fbfc);
    NoShift(0x8000_0000);
    Root24();
    Roots24();
    TopPowers();
    MoveOn(0xdd36_fbfc, 1, 24);
    MoveOn(0xdd36_fbfc, 2, 24);
    MoveOn(0xdd36_fbfc, 3, 24);
    MoveOn(0xdd36_fbfc, 4, 24);
    MoveOn(0xdd36_fbfc, 5, 24);
    MoveOn(0xdd36_fbfc, 6, 24);
    MoveOn(0xdd36_fbfc, 7, 24);
    TopByte(x);
  }

  // Where the checksum moves when a covered byte differs by `x`, with thirty-four more to read.
  function Sum280(x: bv32): bv32 {
    Mix(0, x, 0x21c6_9623, 0x438d_2c46, 0x871a_588c, 0x0bd8_c7e9, 0x17b1_8fd2, 0x2f63_1fa4, 0x5ec6_3f48, 0xbd8c_7e90)
  }

  lemma Found280(x: bv32)
    requires x <= 0xff && Sum280(x) & 0xff == 0
    ensures x == 0 || x == 0xf
  {
  }

  lemma Value280()
    ensures Sum280(0xf) == Join(0, 0x25, 0x89, 0xee)
  {
  }

  lemma Solve280(a: bv32, b: bv32, c: bv32, e: bv32)
    requires AllBytes(a, b, c, e)
    ensures Join(0, e, c, b) == Sum280(a) <==>
            || (a == 0 && b == 0 && c == 0 && e == 0)
            || (a == 0x0f && b == 0xee && c == 0x89 && e == 0x25)
  {
    hide Join, Sum280;
    JoinLeavesOut(0, e, c, b);
    if Join(0, e, c, b) == Sum280(a) {
      Found280(a);
    }
    NoValue280();
    Value280();
    SameJoin(0, e, c, b, 0, 0, 0, 0);
    SameJoin(0, e, c, b, 0, 0x25, 0x89, 0xee);
  }

  lemma NoValue280()
    ensures Sum280(0) == Join(0, 0, 0, 0)
  {
  }

  lemma Reaches280(x: bv32)
    requires x <= 0xff
    ensures Shifts(x, 280) == Sum280(x)
  {
    hide Shifts, Mix, Lower;
    LowerOfByte(x);
    ShiftsOfByte(x, 280);
    ShiftsOfZero(272);
    PowersTo280();
  }

  // Where the checksum moves when two covered bytes differ by `x`, with thirty-four more to read.
  function Sum288(x: bv32): bv32 {
    Mix(Mix(0, Lower(x), 0x21c6_9623, 0x438d_2c46, 0x871a_588c, 0x0bd8_c7e9, 0x17b1_8fd2, 0x2f63_1fa4, 0x5ec6_3f48,
            0xbd8c_7e90),
        x, 0x33cc_bbbc, 0x6799_7778, 0xcf32_eef0, 0x9b89_ab11, 0x32ff_20d3, 0x65fe_41a6, 0xcbfc_834c, 0x9215_7069)
  }

  // A mask of the vanishing bits relates the digits of `x` that it leaves.
  lemma Read288(m: bv32, x: bv32)
    requires m <= 0xffff && Sum288(x) & 0xffff == 0
    ensures !FlipByte(FlipByte(false, m, Lower(x), 0x21c6_9623, 0x438d_2c46, 0x871a_588c, 0x0bd8_c7e9, 0x17b1_8fd2,
                               0x2f63_1fa4, 0x5ec6_3f48, 0xbd8c_7e90),
                      m, x, 0x33cc_bbbc, 0x6799_7778, 0xcf32_eef0, 0x9b89_ab11, 0x32ff_20d3, 0x65fe_41a6, 0xcbfc_834c,
                          0x9215_7069)
  {
    hide Test, Mix, FlipByte, Lower;
    var high := Mix(0, Lower(x), 0x21c6_9623, 0x438d_2c46, 0x871a_588c, 0x0bd8_c7e9, 0x17b1_8fd2, 0x2f63_1fa4,
                    0x5ec6_3f48, 0xbd8c_7e90);
    TestOfNothing(m);
    TestOfMix(m, 0, Lower(x), 0x21c6_9623, 0x438d_2c46, 0x871a_588c, 0x0bd8_c7e9, 0x17b1_8fd2, 0x2f63_1fa4,
              0x5ec6_3f48, 0xbd8c_7e90);
    TestOfMix(m, high, x, 0x33cc_bbbc, 0x6799_7778, 0xcf32_eef0, 0x9b89_ab11, 0x32ff_20d3, 0x65fe_41a6, 0xcbfc_834c,
              0x9215_7069);
    LowTestFails(m, Sum288(x));
  }

  lemma Digits288Part1(x: bv32)
    requires Sum288(x) & 0xffff == 0
    ensures !Has(x, 0x1)
    ensures Has(x, 0x2) == (Has(Lower(x), 0x20) != Has(Lower(x), 0x40))
    ensures Has(x, 0x4) == Has(Lower(x), 0x20)
  {
    hide Sum288, Has, Lower;
    Read288(0xa1c9, x);
    Read288(0xa4b9, x);
    Read288(0x88e0, x);
  }

  lemma Digits288Part2(x: bv32)
    requires Sum288(x) & 0xffff == 0
    ensures Has(x, 0x8) == Has(Lower(x), 0x20)
    ensures Has(x, 0x10) == Has(Lower(x), 0x40)
    ensures !Has(x, 0x20)
  {
    hide Sum288, Has, Lower;
    Read288(0x217e, x);
    Read288(0x0f8f, x);
    Read288(0xa340, x);
  }

  lemma Digits288Part3(x: bv32)
    requires Sum288(x) & 0xffff == 0
    ensures Has(x, 0x40) == (Has(Lower(x), 0x20) != Has(Lower(x), 0x40))
    ensures Has(x, 0x80) == Has(Lower(x), 0x20)
    ensures Has(Lower(x), 0x1) == Has(Lower(x), 0x20)
  {
    hide Sum288, Has, Lower;
    Read288(0xa1ab, x);
    Read288(0x82c4, x);
    Read288(0x0e19, x);
  }

  lemma Digits288Part4(x: bv32)
    requires Sum288(x) & 0xffff == 0
    ensures Has(Lower(x), 0x2) == Has(Lower(x), 0x40)
    ensures !Has(Lower(x), 0x4)
    ensures Has(Lower(x), 0x8) == (Has(Lower(x), 0x20) != Has(Lower(x), 0x40))
  {
    hide Sum288, Has, Lower;
    Read288(0x271c, x);
    Read288(0x843a, x);
    Read288(0xa22d, x);
  }

  lemma Digits288Part5(x: bv32)
    requires Sum288(x) & 0xffff == 0
    ensures Has(Lower(x), 0x10) == Has(Lower(x), 0x20)
    ensures !Has(Lower(x), 0x80)
  {
    hide Sum288, Has, Lower;
    Read288(0x85c8, x);
    Read288(0x26b9, x);
  }

  lemma Found288(x: bv32)
    requires x <= 0xffff && Sum288(x) & 0xffff == 0
    ensures x == 0 || x == 0x39ce || x == 0x4a52 || x == 0x739c
  {
    hide Sum288;
    Digits288Part1(x);
    Digits288Part2(x);
    Digits288Part3(x);
    Digits288Part4(x);
    Digits288Part5(x);
  }

  lemma Value288At1()
    ensures Sum288(0x39ce) == Join(0, 0, 0x07, 0x78)
  {
  }

  lemma Value288At2()
    ensures Sum288(0x4a52) == Join(0, 0, 0x09, 0x88)
  {
  }

  lemma Value288At3()
    ensures Sum288(0x739c) == Join(0, 0, 0x0e, 0xf0)
  {
  }

  lemma Solve288(a: bv32, b: bv32, c: bv32, e: bv32)
    requires AllBytes(a, b, c, e)
    ensures Join(0, 0, e, c) == Sum288(Join(a, b, 0, 0)) <==>
            || (a == 0 && b == 0 && c == 0 && e == 0)
            || (a == 0xce && b == 0x39 && c == 0x78 && e == 0x07)
            || (a == 0x52 && b == 0x4a && c == 0x88 && e == 0x09)
            || (a == 0x9c && b == 0x73 && c == 0xf0 && e == 0x0e)
  {
    hide Join, Sum288;
    if Join(0, 0, e, c) == Sum288(Join(a, b, 0, 0)) {
      Pairs288(a, b, c, e);
    }
    Match288(c, e);
  }

  lemma Pairs288(a: bv32, b: bv32, c: bv32, e: bv32)
    requires AllBytes(a, b, c, e) && Join(0, 0, e, c) == Sum288(Join(a, b, 0, 0))
    ensures (a == 0 && b == 0) || (a == 0xce && b == 0x39) || (a == 0x52 && b == 0x4a) || (a == 0x9c && b == 0x73)
  {
    hide Join, Sum288;
    JoinLeavesOut(0, 0, e, c);
    JoinOfTwo(a, b);
    Found288(Join(a, b, 0, 0));
    Joined288();
    SameTwo(a, b, 0x00, 0x00);
    SameTwo(a, b, 0xce, 0x39);
    SameTwo(a, b, 0x52, 0x4a);
    SameTwo(a, b, 0x9c, 0x73);
  }

  lemma Match288(c: bv32, e: bv32)
    requires AllBytes(0, 0, c, e)
    ensures Join(0, 0, e, c) == Sum288(Join(0, 0, 0, 0)) <==> c == 0 && e == 0
    ensures Join(0, 0, e, c) == Sum288(Join(0xce, 0x39, 0, 0)) <==> c == 0x78 && e == 0x07
    ensures Join(0, 0, e, c) == Sum288(Join(0x52, 0x4a, 0, 0)) <==> c == 0x88 && e == 0x09
    ensures Join(0, 0, e, c) == Sum288(Join(0x9c, 0x73, 0, 0)) <==> c == 0xf0 && e == 0x0e
  {
    hide Join, Sum288;
    NoValue288();
    Joined288();
    Value288At1();
    Value288At2();
    Value288At3();
    SameJoin(0, 0, e, c, 0, 0, 0, 0);
    SameJoin(0, 0, e, c, 0, 0, 0x07, 0x78);
    SameJoin(0, 0, e, c, 0, 0, 0x09, 0x88);
    SameJoin(0, 0, e, c, 0, 0, 0x0e, 0xf0);
  }

  lemma NoValue288()
    ensures Sum288(0) == Join(0, 0, 0, 0)
  {
  }

  lemma Joined288()
    ensures Join(0, 0, 0, 0) == 0
    ensures Join(0xce, 0x39, 0, 0) == 0x39ce
    ensures Join(0x52, 0x4a, 0, 0) == 0x4a52
    ensures Join(0x9c, 0x73, 0, 0) == 0x739c
  {
  }

  lemma Reaches288(x: bv32)
    requires x <= 0xffff
    ensures Shifts(x, 288) == Sum288(x)
  {
    hide Shifts, Mix, Lower;
    LowerOfByte(x);
    ShiftsOfByte(x, 288);
    ShiftsOfByte(Lower(x), 280);
    ShiftsOfZero(272);
    PowersTo280();
    PowersTo288();
  }

  // How three covered bytes must differ to move the last byte of the register by `x`, with thirty-four more to read.
  function Sum296(x: bv32): bv32 {
    Mix(0, x, 0x8d6b_52b5, 0x1f3a_d39b, 0x3e75_a736, 0x7ceb_4e6c, 0xf9d6_9cd8, 0xf641_4f41, 0xe96e_e873, 0xd731_a617)
  }

  lemma Found296(x: bv32)
    requires x <= 0xff && Sum296(x) & 0xff00_0000 == 0
    ensures x == 0 || x == 0x62 || x == 0xc4 || x == 0xa6
  {
  }

  lemma Value296At1()
    ensures Sum296(0x62) == Join(0xa9, 0x74, 0x15, 0)
  {
  }

  lemma Value296At2()
    ensures Sum296(0xc4) == Join(0x52, 0xe9, 0x2a, 0)
  {
  }

  lemma Value296At3()
    ensures Sum296(0xa6) == Join(0xfb, 0x9d, 0x3f, 0)
  {
  }

  lemma Solve296(a: bv32, b: bv32, c: bv32, e: bv32)
    requires AllBytes(a, b, c, e)
    ensures Join(a, b, c, 0) == Sum296(e) <==>
            || (a == 0 && b == 0 && c == 0 && e == 0)
            || (a == 0xa9 && b == 0x74 && c == 0x15 && e == 0x62)
            || (a == 0x52 && b == 0xe9 && c == 0x2a && e == 0xc4)
            || (a == 0xfb && b == 0x9d && c == 0x3f && e == 0xa6)
  {
    hide Join, Sum296;
    JoinLeavesOut(a, b, c, 0);
    if Join(a, b, c, 0) == Sum296(e) {
      Found296(e);
    }
    NoValue296();
    Value296At1();
    Value296At2();
    Value296At3();
    SameJoin(a, b, c, 0, 0, 0, 0, 0);
    SameJoin(a, b, c, 0, 0xa9, 0x74, 0x15, 0);
    SameJoin(a, b, c, 0, 0x52, 0xe9, 0x2a, 0);
    SameJoin(a, b, c, 0, 0xfb, 0x9d, 0x3f, 0);
  }

  lemma NoValue296()
    ensures Sum296(0) == Join(0, 0, 0, 0)
  {
  }

  lemma Reaches296(x: bv32)
    requires x <= 0xff
    ensures Shifts(Sum296(x), 296) == Join(0, 0, 0, x)
  {
    hide Shifts, Mix, Join;
    ShiftsOfMix(x, 296, 0x8d6b_52b5, 0x1f3a_d39b, 0x3e75_a736, 0x7ceb_4e6c, 0xf9d6_9cd8, 0xf641_4f41, 0xe96e_e873,
                0xd731_a617);
    NoShift(0xd731_a617);
    NoShift(0x8000_0000);
    Root296();
    Roots296();
    TopPowers();
    MoveOn(0xd731_a617, 1, 296);
    MoveOn(0xd731_a617, 2, 296);
    MoveOn(0xd731_a617, 3, 296);
    MoveOn(0xd731_a617, 4, 296);
    MoveOn(0xd731_a617, 5, 296);
    MoveOn(0xd731_a617, 6, 296);
    MoveOn(0xd731_a617, 7, 296);
    TopByte(x);
  }

  // ---------- Bytes ----------

  lemma WordOfZero()
    ensures Word(0) == 0
  {
    WordOfByte(0);
  }

  lemma WordsMatch(d: seq<byte>, p: seq<byte>)
    requires |d| == |p| == 4
    ensures d == p <==> Word(d[0]) == Word(p[0]) && Word(d[1]) == Word(p[1])
                        && Word(d[2]) == Word(p[2]) && Word(d[3]) == Word(p[3])
  {
    hide Word;
    if Word(d[0]) == Word(p[0]) && Word(d[1]) == Word(p[1]) && Word(d[2]) == Word(p[2]) && Word(d[3]) == Word(p[3]) {
      WordInjective(d[0], p[0]);
      WordInjective(d[1], p[1]);
      WordInjective(d[2], p[2]);
      WordInjective(d[3], p[3]);
    }
  }

  lemma WordsFit(d: seq<byte>)
    requires |d| == 4
    ensures AllBytes(Word(d[0]), Word(d[1]), Word(d[2]), Word(d[3]))
  {
    WordFits(d[0]);
    WordFits(d[1]);
    WordFits(d[2]);
    WordFits(d[3]);
  }

  // The difference of the covered bytes, and that of the stored checksum, as words.
  lemma Sides1(d: seq<byte>)
    requires |d| == 4
    ensures Pack(d[..1]) == Join(Word(d[0]), 0, 0, 0)
    ensures Pack(Reversed(d[1..] + Zeros(1))) == Join(0, Word(d[3]), Word(d[2]), Word(d[1]))
  {
    hide Word, Raise, Join;
    PackPadded(d[..1]);
    PackPadded(d[..1] + [0]);
    PackPadded(d[..1] + [0] + [0]);
    assert d[..1] + [0] + [0] + [0] == [d[0], 0, 0, 0];
    PackOfFour(d[0], 0, 0, 0);
    assert Reversed(d[1..] + Zeros(1)) == [0, d[3], d[2], d[1]];
    PackOfFour(0, d[3], d[2], d[1]);
    WordOfZero();
  }

  lemma Sides2(d: seq<byte>)
    requires |d| == 4
    ensures Pack(d[..2]) == Join(Word(d[0]), Word(d[1]), 0, 0)
    ensures Pack(Reversed(d[2..] + Zeros(2))) == Join(0, 0, Word(d[3]), Word(d[2]))
  {
    hide Word, Raise, Join;
    PackPadded(d[..2]);
    PackPadded(d[..2] + [0]);
    assert d[..2] + [0] + [0] == [d[0], d[1], 0, 0];
    PackOfFour(d[0], d[1], 0, 0);
    assert Reversed(d[2..] + Zeros(2)) == [0, 0, d[3], d[2]];
    PackOfFour(0, 0, d[3], d[2]);
    WordOfZero();
  }

  lemma Sides3(d: seq<byte>)
    requires |d| == 4
    ensures Pack(d[..3]) == Join(Word(d[0]), Word(d[1]), Word(d[2]), 0)
    ensures Pack(Reversed(d[3..] + Zeros(3))) == Join(0, 0, 0, Word(d[3]))
  {
    hide Word, Raise, Join;
    PackPadded(d[..3]);
    assert d[..3] + [0] == [d[0], d[1], d[2], 0];
    PackOfFour(d[0], d[1], d[2], 0);
    assert Reversed(d[3..] + Zeros(3)) == [0, 0, 0, d[3]];
    PackOfFour(0, 0, 0, d[3]);
    WordOfZero();
  }

  lemma {:induction false} PackPadded(w: seq<byte>)
    ensures Pack(w + [0]) == Pack(w)
  {
    hide Word, Raise, Xor;
    if w == [] {
      assert w + [0] == [0];
      assert [0][1..] == [];
      WordOfZero();
      RaiseOfZero();
      XorZero(0);
    } else {
      assert (w + [0])[1..] == w[1..] + [0];
      PackPadded(w[1..]);
    }
  }

  lemma RaiseOfZero()
    ensures Raise(0) == 0
  {
  }

  lemma JoinOfOne(a: bv32)
    ensures Join(a, 0, 0, 0) == a
  {
  }

  lemma Matches0(d: seq<byte>)
    requires |d| == 4
    ensures d == [0, 0, 0, 0] <==> Word(d[0]) == 0 && Word(d[1]) == 0 && Word(d[2]) == 0 && Word(d[3]) == 0
  {
    WordsMatch(d, [0, 0, 0, 0]);
    WordOfZero();
  }

  lemma Matches8(d: seq<byte>)
    requires |d| == 4
    ensures d == [0x5d, 0xee, 0x0d, 0x96] <==>
            Word(d[0]) == 0x5d && Word(d[1]) == 0xee && Word(d[2]) == 0x0d && Word(d[3]) == 0x96
  {
    hide Word, Nibble;
    LowNibbles();
    HighNibbles();
    WordOfByte(0x5d);
    WordOfByte(0xee);
    WordOfByte(0x0d);
    WordOfByte(0x96);
    WordsMatch(d, [0x5d, 0xee, 0x0d, 0x96]);
  }

  // The byte before the checksum.
  lemma OneBefore(d: seq<byte>)
    requires |d| == 4
    ensures Unnoticed(d, 1, 0) <==>
            || d == [0, 0, 0, 0]
            || d == [0x5d, 0xee, 0x0d, 0x96]
  {
    hide Word, Pack, Reversed, Join, Sum8, Shifts;
    var a, b, c, e := Word(d[0]), Word(d[1]), Word(d[2]), Word(d[3]);
    WordsFit(d);
    Sides1(d);
    Solve8(a, b, c, e);
    JoinOfOne(a);
    Reaches8(a);
    Matches0(d);
    Matches8(d);
  }

  lemma Matches16(d: seq<byte>)
    requires |d| == 4
    ensures d == [0x4d, 0x90, 0xad, 0x83] <==>
            Word(d[0]) == 0x4d && Word(d[1]) == 0x90 && Word(d[2]) == 0xad && Word(d[3]) == 0x83
  {
    hide Word, Nibble;
    LowNibbles();
    HighNibbles();
    WordOfByte(0x4d);
    WordOfByte(0x90);
    WordOfByte(0xad);
    WordOfByte(0x83);
    WordsMatch(d, [0x4d, 0x90, 0xad, 0x83]);
  }

  // The two bytes before the checksum.
  lemma TwoBefore(d: seq<byte>)
    requires |d| == 4
    ensures Unnoticed(d, 2, 0) <==>
            || d == [0, 0, 0, 0]
            || d == [0x4d, 0x90, 0xad, 0x83]
  {
    hide Word, Pack, Reversed, Join, Sum16, Shifts;
    var a, b, c, e := Word(d[0]), Word(d[1]), Word(d[2]), Word(d[3]);
    WordsFit(d);
    Sides2(d);
    Solve16(a, b, c, e);
    JoinOfTwo(a, b);
    Reaches16(Join(a, b, 0, 0));
    Matches0(d);
    Matches16(d);
  }

  // The three bytes before the checksum: no difference hides there.
  lemma ThreeBefore(d: seq<byte>)
    requires |d| == 4
    ensures Unnoticed(d, 3, 0) <==>
            || d == [0, 0, 0, 0]
  {
    hide Word, Pack, Reversed, Join, Sum24, Shifts;
    var a, b, c, e := Word(d[0]), Word(d[1]), Word(d[2]), Word(d[3]);
    WordsFit(d);
    Sides3(d);
    Solve24(a, b, c, e);
    Reaches24(e);
    if Shifts(Sum24(e), 24) == Shifts(Join(a, b, c, 0), 24) {
      ShiftsInjective(Sum24(e), Join(a, b, c, 0), 24);
    }
    Matches0(d);
  }

  lemma Matches280(d: seq<byte>)
    requires |d| == 4
    ensures d == [0x0f, 0xee, 0x89, 0x25] <==>
            Word(d[0]) == 0x0f && Word(d[1]) == 0xee && Word(d[2]) == 0x89 && Word(d[3]) == 0x25
  {
    hide Word, Nibble;
    LowNibbles();
    HighNibbles();
    WordOfByte(0x0f);
    WordOfByte(0xee);
    WordOfByte(0x89);
    WordOfByte(0x25);
    WordsMatch(d, [0x0f, 0xee, 0x89, 0x25]);
  }

  // The checksum field, read as zero, and thirty reserved bytes are covered as well.
  lemma OneBeforeZeros(d: seq<byte>)
    requires |d| == 4
    ensures Unnoticed(d, 1, 34) <==>
            || d == [0, 0, 0, 0]
            || d == [0x0f, 0xee, 0x89, 0x25]
  {
    hide Word, Pack, Reversed, Join, Sum280, Shifts;
    var a, b, c, e := Word(d[0]), Word(d[1]), Word(d[2]), Word(d[3]);
    WordsFit(d);
    Sides1(d);
    Solve280(a, b, c, e);
    JoinOfOne(a);
    Reaches280(a);
    Matches0(d);
    Matches280(d);
  }

  lemma Matches288At1(d: seq<byte>)
    requires |d| == 4
    ensures d == [0xce, 0x39, 0x78, 0x07] <==>
            Word(d[0]) == 0xce && Word(d[1]) == 0x39 && Word(d[2]) == 0x78 && Word(d[3]) == 0x07
  {
    hide Word, Nibble;
    LowNibbles();
    HighNibbles();
    WordOfByte(0xce);
    WordOfByte(0x39);
    WordOfByte(0x78);
    WordOfByte(0x07);
    WordsMatch(d, [0xce, 0x39, 0x78, 0x07]);
  }

  lemma Matches288At2(d: seq<byte>)
    requires |d| == 4
    ensures d == [0x52, 0x4a, 0x88, 0x09] <==>
            Word(d[0]) == 0x52 && Word(d[1]) == 0x4a && Word(d[2]) == 0x88 && Word(d[3]) == 0x09
  {
    hide Word, Nibble;
    LowNibbles();
    HighNibbles();
    WordOfByte(0x52);
    WordOfByte(0x4a);
    WordOfByte(0x88);
    WordOfByte(0x09);
    WordsMatch(d, [0x52, 0x4a, 0x88, 0x09]);
  }

  lemma Matches288At3(d: seq<byte>)
    requires |d| == 4
    ensures d == [0x9c, 0x73, 0xf0, 0x0e] <==>
            Word(d[0]) == 0x9c && Word(d[1]) == 0x73 && Word(d[2]) == 0xf0 && Word(d[3]) == 0x0e
  {
    hide Word, Nibble;
    LowNibbles();
    HighNibbles();
    WordOfByte(0x9c);
    WordOfByte(0x73);
    WordOfByte(0xf0);
    WordOfByte(0x0e);
    WordsMatch(d, [0x9c, 0x73, 0xf0, 0x0e]);
  }

  lemma TwoBeforeZeros(d: seq<byte>)
    requires |d| == 4
    ensures Unnoticed(d, 2, 34) <==>
            || d == [0, 0, 0, 0]
            || d == [0xce, 0x39, 0x78, 0x07]
            || d == [0x52, 0x4a, 0x88, 0x09]
            || d == [0x9c, 0x73, 0xf0, 0x0e]
  {
    hide Word, Pack, Reversed, Join, Sum288, Shifts;
    var a, b, c, e := Word(d[0]), Word(d[1]), Word(d[2]), Word(d[3]);
    WordsFit(d);
    Sides2(d);
    Solve288(a, b, c, e);
    JoinOfTwo(a, b);
    Reaches288(Join(a, b, 0, 0));
    Matches0(d);
    Matches288At1(d);
    Matches288At2(d);
    Matches288At3(d);
  }

  lemma Matches296At1(d: seq<byte>)
    requires |d| == 4
    ensures d == [0xa9, 0x74, 0x15, 0x62] <==>
            Word(d[0]) == 0xa9 && Word(d[1]) == 0x74 && Word(d[2]) == 0x15 && Word(d[3]) == 0x62
  {
    hide Word, Nibble;
    LowNibbles();
    HighNibbles();
    WordOfByte(0xa9);
    WordOfByte(0x74);
    WordOfByte(0x15);
    WordOfByte(0x62);
    WordsMatch(d, [0xa9, 0x74, 0x15, 0x62]);
  }

  lemma Matches296At2(d: seq<byte>)
    requires |d| == 4
    ensures d == [0x52, 0xe9, 0x2a, 0xc4] <==>
            Word(d[0]) == 0x52 && Word(d[1]) == 0xe9 && Word(d[2]) == 0x2a && Word(d[3]) == 0xc4
  {
    hide Word, Nibble;
    LowNibbles();
    HighNibbles();
    WordOfByte(0x52);
    WordOfByte(0xe9);
    WordOfByte(0x2a);
    WordOfByte(0xc4);
    WordsMatch(d, [0x52, 0xe9, 0x2a, 0xc4]);
  }

  lemma Matches296At3(d: seq<byte>)
    requires |d| == 4
    ensures d == [0xfb, 0x9d, 0x3f, 0xa6] <==>
            Word(d[0]) == 0xfb && Word(d[1]) == 0x9d && Word(d[2]) == 0x3f && Word(d[3]) == 0xa6
  {
    hide Word, Nibble;
    LowNibbles();
    HighNibbles();
    WordOfByte(0xfb);
    WordOfByte(0x9d);
    WordOfByte(0x3f);
    WordOfByte(0xa6);
    WordsMatch(d, [0xfb, 0x9d, 0x3f, 0xa6]);
  }

  lemma ThreeBeforeZeros(d: seq<byte>)
    requires |d| == 4
    ensures Unnoticed(d, 3, 34) <==>
            || d == [0, 0, 0, 0]
            || d == [0xa9, 0x74, 0x15, 0x62]
            || d == [0x52, 0xe9, 0x2a, 0xc4]
            || d == [0xfb, 0x9d, 0x3f, 0xa6]
  {
    hide Word, Pack, Reversed, Join, Sum296, Shifts;
    var a, b, c, e := Word(d[0]), Word(d[1]), Word(d[2]), Word(d[3]);
    WordsFit(d);
    Sides3(d);
    Solve296(a, b, c, e);
    Reaches296(e);
    if Shifts(Sum296(e), 296) == Shifts(Join(a, b, c, 0), 296) {
      ShiftsInjective(Sum296(e), Join(a, b, c, 0), 296);
    }
    Matches0(d);
    Matches296At1(d);
    Matches296At2(d);
    Matches296At3(d);
  }

  // ---------- Windows over covered bytes and their checksum ----------

  lemma {:induction false} XorBitsSelf(a: nat, n: nat)
    ensures XorBits(a, a, n) == 0
  {
    if n > 0 {
      XorBitsSelf(a / 2, n - 1);
    }
  }

  lemma XorByteSelf(a: byte)
    ensures XorByte(a, a) == 0
  {
    XorBitsSelf(a, 8);
  }

  lemma XorBytesZero(v: seq<byte>, w: seq<byte>)
    requires |v| == |w| && XorBytes(v, w) == Zeros(|v|)
    ensures v == w
  {
    hide XorByte, XorBytes;
    forall i | 0 <= i < |v|
      ensures v[i] == w[i]
    {
      assert XorBytes(v, w)[i] == 0;
      SameWords(v[i], w[i]);
    }
  }

  lemma SameWords(a: byte, b: byte)
    requires XorByte(a, b) == 0
    ensures a == b
  {
    WordOfXor(a, b);
    WordOfZero();
    XorToZero(Word(a), Word(b));
    WordInjective(a, b);
  }

  lemma XorToZero(x: bv32, y: bv32)
    requires Xor(x, y) == 0
    ensures x == y
  {
  }

  // Flipping the same bits twice restores a byte.
  lemma FlipTwice(a: byte, b: byte)
    ensures XorByte(a, XorByte(a, b)) == b
  {
    hide Xor, Word;
    WordOfXor(a, b);
    WordOfXor(a, XorByte(a, b));
    XorAssociative(Word(a), Word(a), Word(b));
    XorSelf(Word(a));
    XorCommutative(0, Word(b));
    XorZero(Word(b));
    WordInjective(XorByte(a, XorByte(a, b)), b);
  }

  lemma FieldDifference(q: seq<byte>, r: seq<byte>, k: nat)
    requires |q| == |r| == 4 && k <= 4 && q[4 - k..] == r[4 - k..]
    ensures XorBytes(q, r) == XorBytes(q[..4 - k], r[..4 - k]) + Zeros(k)
  {
    hide XorByte, XorBytes, Zeros;
    var d := XorBytes(q[..4 - k], r[..4 - k]) + Zeros(k);
    forall i | 0 <= i < 4
      ensures XorBytes(q, r)[i] == d[i]
    {
      FieldDifferenceAt(q, r, k, i);
    }
  }

  lemma FieldDifferenceAt(q: seq<byte>, r: seq<byte>, k: nat, i: nat)
    requires |q| == |r| == 4 && k <= 4 && q[4 - k..] == r[4 - k..] && i < 4
    ensures XorBytes(q, r)[i] == (XorBytes(q[..4 - k], r[..4 - k]) + Zeros(k))[i]
  {
    hide XorByte, XorBytes;
    if i < 4 - k {
      assert q[..4 - k][i] == q[i] && r[..4 - k][i] == r[i];
    } else {
      assert q[4 - k..][i - (4 - k)] == q[i] && r[4 - k..][i - (4 - k)] == r[i];
      XorByteSelf(q[i]);
      assert Zeros(k)[i - (4 - k)] == 0;
    }
  }

  // The difference over a window of `|v|` covered bytes and the first bytes of the stored field.
  function WindowDifferenceOf(v: seq<byte>, w: seq<byte>, q: seq<byte>, r: seq<byte>): (d: seq<byte>)
    requires |v| == |w| <= 4 && |q| == |r| == 4
    ensures |d| == 4
  {
    XorBytes(v, w) + XorBytes(q[..4 - |v|], r[..4 - |v|])
  }

  lemma WindowParts(v: seq<byte>, w: seq<byte>, q: seq<byte>, r: seq<byte>)
    requires |v| == |w| <= 4 && |q| == |r| == 4 && q[4 - |v|..] == r[4 - |v|..]
    ensures var d := WindowDifferenceOf(v, w, q, r);
            d[..|v|] == XorBytes(v, w) && d[|v|..] + Zeros(|v|) == XorBytes(q, r)
  {
    hide XorByte, XorBytes, Zeros;
    FieldDifference(q, r, |v|);
    var d := WindowDifferenceOf(v, w, q, r);
    assert d[..|v|] == XorBytes(v, w);
    assert d[|v|..] == XorBytes(q[..4 - |v|], r[..4 - |v|]);
  }

  // The stored field after the change is the checksum of the bytes after the change exactly when
  // the difference goes unnoticed.
  lemma WindowMatches(p: seq<byte>, v: seq<byte>, w: seq<byte>, z: seq<byte>, q: seq<byte>, r: seq<byte>)
    requires |v| == |w| <= 4 && |r| == 4 && q == BigEndian(Crc(p + v + z), 4)
    requires q[4 - |v|..] == r[4 - |v|..]
    ensures r == BigEndian(Crc(p + w + z), 4) <==> Unnoticed(WindowDifferenceOf(v, w, q, r), |v|, |z|)
  {
    hide Crc, Agree, XorByte, XorBytes, BigEndian, Zeros, WindowDifferenceOf;
    StraddleMatches(p, v, w, z, q, r);
    WindowParts(v, w, q, r);
  }
}
