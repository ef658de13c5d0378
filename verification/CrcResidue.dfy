/** CRC-32C against its published check value and its residue. */
module CrcResidue {
  import opened Bytes
  import opened Crc32c
  import opened CrcStraddle
  import opened CrcPowers

  // The last byte of `n` first.
  function LittleEndian(n: nat, width: nat): (s: seq<byte>)
    ensures |s| == width
  {
    if width == 0 then [] else [n % 256] + LittleEndian(n / 256, width - 1)
  }

  lemma {:induction false} LittleIsReversedBig(n: nat, width: nat)
    ensures LittleEndian(n, width) == Reversed(BigEndian(n, width))
  {
    hide Reversed, BigEndian;
    if width > 0 {
      LastByteFirst(n, width - 1);
      LittleIsReversedBig(n / 256, width - 1);
    }
  }

  lemma XorComplement(s: bv32)
    ensures Xor(s, Complement(s)) == 0xffff_ffff
  {
  }

  lemma FourBytesOfOnes()
    ensures Shifts(0xffff_ffff, 32) == 0xb798_b438
  {
    hide Shifts;
    NoShift(0xffff_ffff);
    AdvanceByte(0xffff_ffff, 0);
    AdvanceByte(0xffff_ffff, 8);
    AdvanceByte(0xffff_ffff, 16);
    AdvanceByte(0xffff_ffff, 24);
    assert StepByte(0xffff_ffff) == 0xad82_acae && StepByte(0xad82_acae) == 0x0e9e_882d;
    assert StepByte(0x0e9e_882d) == 0x9f9b_5c85 && StepByte(0x9f9b_5c85) == 0xb798_b438;
  }

  lemma ChecksumWithItself(bytes: seq<byte>)
    ensures Checksum(bytes + LittleEndian(Crc(bytes), 4)) == 0x4867_4bc7
  {
    hide Crc, Feed, Shifts, Xor, Pack, LittleEndian;
    var s, own := Feed(0xffff_ffff, bytes), LittleEndian(Crc(bytes), 4);
    FeedConcat(0xffff_ffff, bytes, own);
    LittleIsReversedBig(Crc(bytes), 4);
    StoredCrc(bytes);
    FeedIsShiftedPack(s, own);
    XorComplement(s);
    FourBytesOfOnes();
  }

  lemma ValueHalved(x: bv32)
    ensures Value(x) == 2 * Value(Half(x)) + if Odd(x) then 1 else 0
  {
  }

  lemma ValueOfZero()
    ensures Value(0) == 0
  {
  }

  lemma ResidueValue1()
    ensures Value(0x0000_0048) == 0x0000_0048
  {
    hide Value;
    ValueOfZero();
    ValueHalved(0x0000_0048);
    ValueHalved(0x0000_0024);
    ValueHalved(0x0000_0012);
    ValueHalved(0x0000_0009);
    ValueHalved(0x0000_0004);
    ValueHalved(0x0000_0002);
    ValueHalved(0x0000_0001);
    ValueHalved(0x0000_0000);
    assert Half(0x0000_0048) == 0x0000_0024;
    assert Half(0x0000_0024) == 0x0000_0012;
    assert Half(0x0000_0012) == 0x0000_0009;
    assert Half(0x0000_0009) == 0x0000_0004;
    assert Half(0x0000_0004) == 0x0000_0002;
    assert Half(0x0000_0002) == 0x0000_0001;
    assert Half(0x0000_0001) == 0x0000_0000;
    assert Half(0x0000_0000) == 0x0000_0000;
  }

  lemma ResidueValue2()
    ensures Value(0x0000_4867) == 0x0000_4867
  {
    hide Value;
    ResidueValue1();
    ValueHalved(0x0000_4867);
    ValueHalved(0x0000_2433);
    ValueHalved(0x0000_1219);
    ValueHalved(0x0000_090c);
    ValueHalved(0x0000_0486);
    ValueHalved(0x0000_0243);
    ValueHalved(0x0000_0121);
    ValueHalved(0x0000_0090);
    assert Half(0x0000_4867) == 0x0000_2433;
    assert Half(0x0000_2433) == 0x0000_1219;
    assert Half(0x0000_1219) == 0x0000_090c;
    assert Half(0x0000_090c) == 0x0000_0486;
    assert Half(0x0000_0486) == 0x0000_0243;
    assert Half(0x0000_0243) == 0x0000_0121;
    assert Half(0x0000_0121) == 0x0000_0090;
    assert Half(0x0000_0090) == 0x0000_0048;
  }

  lemma ResidueValue3()
    ensures Value(0x0048_674b) == 0x0048_674b
  {
    hide Value;
    ResidueValue2();
    ValueHalved(0x0048_674b);
    ValueHalved(0x0024_33a5);
    ValueHalved(0x0012_19d2);
    ValueHalved(0x0009_0ce9);
    ValueHalved(0x0004_8674);
    ValueHalved(0x0002_433a);
    ValueHalved(0x0001_219d);
    ValueHalved(0x0000_90ce);
    assert Half(0x0048_674b) == 0x0024_33a5;
    assert Half(0x0024_33a5) == 0x0012_19d2;
    assert Half(0x0012_19d2) == 0x0009_0ce9;
    assert Half(0x0009_0ce9) == 0x0004_8674;
    assert Half(0x0004_8674) == 0x0002_433a;
    assert Half(0x0002_433a) == 0x0001_219d;
    assert Half(0x0001_219d) == 0x0000_90ce;
    assert Half(0x0000_90ce) == 0x0000_4867;
  }

  lemma ResidueValue4()
    ensures Value(0x4867_4bc7) == 0x4867_4bc7
  {
    hide Value;
    ResidueValue3();
    ValueHalved(0x4867_4bc7);
    ValueHalved(0x2433_a5e3);
    ValueHalved(0x1219_d2f1);
    ValueHalved(0x090c_e978);
    ValueHalved(0x0486_74bc);
    ValueHalved(0x0243_3a5e);
    ValueHalved(0x0121_9d2f);
    ValueHalved(0x0090_ce97);
    assert Half(0x4867_4bc7) == 0x2433_a5e3;
    assert Half(0x2433_a5e3) == 0x1219_d2f1;
    assert Half(0x1219_d2f1) == 0x090c_e978;
    assert Half(0x090c_e978) == 0x0486_74bc;
    assert Half(0x0486_74bc) == 0x0243_3a5e;
    assert Half(0x0243_3a5e) == 0x0121_9d2f;
    assert Half(0x0121_9d2f) == 0x0090_ce97;
    assert Half(0x0090_ce97) == 0x0048_674b;
  }

  // Any bytes followed by their own checksum have the same checksum.
  lemma Residue(bytes: seq<byte>)
    ensures Crc(bytes + LittleEndian(Crc(bytes), 4)) == 0x4867_4bc7
  {
    hide Checksum, Value, LittleEndian;
    ChecksumWithItself(bytes);
    ResidueValue4();
  }

  lemma EmptyHasNoChecksum()
    ensures Crc([]) == 0
  {
  }

  lemma FeedOne(s: bv32, before: seq<byte>, b: byte)
    ensures Feed(s, before + [b]) == StepByte(Xor(Feed(s, before), Word(b)))
  {
    hide Xor, Word, StepByte, Shifts;
    var x := Xor(Feed(s, before), Word(b));
    assert (before + [b])[..|before|] == before;
    NoShift(x);
    AdvanceByte(x, 0);
  }

  lemma HighDigits()
    ensures Bits(24, 7) == 24 && Bits(25, 7) == 25 && Bits(26, 7) == 26 && Bits(27, 7) == 27 && Bits(28, 7) == 28
  {
    hide Bits;
    NoBits(0);
    BitsOfPair(0, false, 0);
    BitsOfPair(0, false, 1);
    BitsOfPair(0, true, 2);
    BitsOfPair(1, true, 3);
    BitsOfPair(3, false, 4);
    BitsOfPair(6, false, 5);
    BitsOfPair(6, true, 5);
    BitsOfPair(3, true, 4);
    BitsOfPair(7, false, 5);
    BitsOfPair(12, false, 6);
    BitsOfPair(12, true, 6);
    BitsOfPair(13, false, 6);
    BitsOfPair(13, true, 6);
    BitsOfPair(14, false, 6);
  }

  // The ASCII digits from one to nine.
  lemma DigitWords()
    ensures Word(49) == 0x31 && Word(50) == 0x32 && Word(51) == 0x33 && Word(52) == 0x34 && Word(53) == 0x35
    ensures Word(54) == 0x36 && Word(55) == 0x37 && Word(56) == 0x38 && Word(57) == 0x39
  {
    hide Bits;
    HighDigits();
    BitsOfPair(24, true, 7);
    BitsOfPair(25, false, 7);
    BitsOfPair(25, true, 7);
    BitsOfPair(26, false, 7);
    BitsOfPair(26, true, 7);
    BitsOfPair(27, false, 7);
    BitsOfPair(27, true, 7);
    BitsOfPair(28, false, 7);
    BitsOfPair(28, true, 7);
  }

  lemma FirstDigits()
    ensures Feed(0xffff_ffff, [49, 50, 51]) == 0xef84_d04d
  {
    hide Feed, Word;
    FeedNothing(0xffff_ffff);
    DigitWords();
    FeedOne(0xffff_ffff, [], 49);
    FeedOne(0xffff_ffff, [49], 50);
    FeedOne(0xffff_ffff, [49, 50], 51);
    assert [] + [49 as byte] == [49];
    assert [49, 50] == [49] + [50 as byte];
    assert [49, 50, 51] == [49, 50] + [51 as byte];
    assert StepByte(Xor(0xffff_ffff, 0x31)) == 0x6f0a_661c;
    assert StepByte(Xor(0x6f0a_661c, 0x32)) == 0x8caa_3b9f;
    assert StepByte(Xor(0x8caa_3b9f, 0x33)) == 0xef84_d04d;
  }

  lemma MiddleDigits()
    ensures Feed(0xffff_ffff, [49, 50, 51, 52, 53, 54]) == 0xbeca_8e79
  {
    hide Feed, Word;
    FirstDigits();
    DigitWords();
    FeedOne(0xffff_ffff, [49, 50, 51], 52);
    FeedOne(0xffff_ffff, [49, 50, 51, 52], 53);
    FeedOne(0xffff_ffff, [49, 50, 51, 52, 53], 54);
    assert [49, 50, 51, 52] == [49, 50, 51] + [52 as byte];
    assert [49, 50, 51, 52, 53] == [49, 50, 51, 52] + [53 as byte];
    assert [49, 50, 51, 52, 53, 54] == [49, 50, 51, 52, 53] + [54 as byte];
    assert StepByte(Xor(0xef84_d04d, 0x34)) == 0x09c5_0b11;
    assert StepByte(Xor(0x09c5_0b11, 0x35)) == 0xe72e_dcca;
    assert StepByte(Xor(0xe72e_dcca, 0x36)) == 0xbeca_8e79;
  }

  lemma LastDigits()
    ensures Feed(0xffff_ffff, [49, 50, 51, 52, 53, 54, 55, 56, 57]) == 0x1cf9_6d7c
  {
    hide Feed, Word;
    MiddleDigits();
    DigitWords();
    FeedOne(0xffff_ffff, [49, 50, 51, 52, 53, 54], 55);
    FeedOne(0xffff_ffff, [49, 50, 51, 52, 53, 54, 55], 56);
    FeedOne(0xffff_ffff, [49, 50, 51, 52, 53, 54, 55, 56], 57);
    assert [49, 50, 51, 52, 53, 54, 55] == [49, 50, 51, 52, 53, 54] + [55 as byte];
    assert [49, 50, 51, 52, 53, 54, 55, 56] == [49, 50, 51, 52, 53, 54, 55] + [56 as byte];
    assert [49, 50, 51, 52, 53, 54, 55, 56, 57] == [49, 50, 51, 52, 53, 54, 55, 56] + [57 as byte];
    assert StepByte(Xor(0xbeca_8e79, 0x37)) == 0xedbd_6815;
    assert StepByte(Xor(0xedbd_6815, 0x38)) == 0x9f78_7f65;
    assert StepByte(Xor(0x9f78_7f65, 0x39)) == 0x1cf9_6d7c;
  }

  lemma FeedNothing(s: bv32)
    ensures Feed(s, []) == s
  {
  }

  lemma CheckValue1()
    ensures Value(0x0000_00e3) == 0x0000_00e3
  {
    hide Value;
    ValueOfZero();
    ValueHalved(0x0000_00e3);
    ValueHalved(0x0000_0071);
    ValueHalved(0x0000_0038);
    ValueHalved(0x0000_001c);
    ValueHalved(0x0000_000e);
    ValueHalved(0x0000_0007);
    ValueHalved(0x0000_0003);
    ValueHalved(0x0000_0001);
    assert Half(0x0000_00e3) == 0x0000_0071;
    assert Half(0x0000_0071) == 0x0000_0038;
    assert Half(0x0000_0038) == 0x0000_001c;
    assert Half(0x0000_001c) == 0x0000_000e;
    assert Half(0x0000_000e) == 0x0000_0007;
    assert Half(0x0000_0007) == 0x0000_0003;
    assert Half(0x0000_0003) == 0x0000_0001;
    assert Half(0x0000_0001) == 0x0000_0000;
  }

  lemma CheckValue2()
    ensures Value(0x0000_e306) == 0x0000_e306
  {
    hide Value;
    CheckValue1();
    ValueHalved(0x0000_e306);
    ValueHalved(0x0000_7183);
    ValueHalved(0x0000_38c1);
    ValueHalved(0x0000_1c60);
    ValueHalved(0x0000_0e30);
    ValueHalved(0x0000_0718);
    ValueHalved(0x0000_038c);
    ValueHalved(0x0000_01c6);
    assert Half(0x0000_e306) == 0x0000_7183;
    assert Half(0x0000_7183) == 0x0000_38c1;
    assert Half(0x0000_38c1) == 0x0000_1c60;
    assert Half(0x0000_1c60) == 0x0000_0e30;
    assert Half(0x0000_0e30) == 0x0000_0718;
    assert Half(0x0000_0718) == 0x0000_038c;
    assert Half(0x0000_038c) == 0x0000_01c6;
    assert Half(0x0000_01c6) == 0x0000_00e3;
  }

  lemma CheckValue3()
    ensures Value(0x00e3_0692) == 0x00e3_0692
  {
    hide Value;
    CheckValue2();
    ValueHalved(0x00e3_0692);
    ValueHalved(0x0071_8349);
    ValueHalved(0x0038_c1a4);
    ValueHalved(0x001c_60d2);
    ValueHalved(0x000e_3069);
    ValueHalved(0x0007_1834);
    ValueHalved(0x0003_8c1a);
    ValueHalved(0x0001_c60d);
    assert Half(0x00e3_0692) == 0x0071_8349;
    assert Half(0x0071_8349) == 0x0038_c1a4;
    assert Half(0x0038_c1a4) == 0x001c_60d2;
    assert Half(0x001c_60d2) == 0x000e_3069;
    assert Half(0x000e_3069) == 0x0007_1834;
    assert Half(0x0007_1834) == 0x0003_8c1a;
    assert Half(0x0003_8c1a) == 0x0001_c60d;
    assert Half(0x0001_c60d) == 0x0000_e306;
  }

  lemma CheckValue4()
    ensures Value(0xe306_9283) == 0xe306_9283
  {
    hide Value;
    CheckValue3();
    ValueHalved(0xe306_9283);
    ValueHalved(0x7183_4941);
    ValueHalved(0x38c1_a4a0);
    ValueHalved(0x1c60_d250);
    ValueHalved(0x0e30_6928);
    ValueHalved(0x0718_3494);
    ValueHalved(0x038c_1a4a);
    ValueHalved(0x01c6_0d25);
    assert Half(0xe306_9283) == 0x7183_4941;
    assert Half(0x7183_4941) == 0x38c1_a4a0;
    assert Half(0x38c1_a4a0) == 0x1c60_d250;
    assert Half(0x1c60_d250) == 0x0e30_6928;
    assert Half(0x0e30_6928) == 0x0718_3494;
    assert Half(0x0718_3494) == 0x038c_1a4a;
    assert Half(0x038c_1a4a) == 0x01c6_0d25;
    assert Half(0x01c6_0d25) == 0x00e3_0692;
  }

  // The published check value: the checksum of the text "123456789".
  lemma CheckValue()
    ensures Crc([49, 50, 51, 52, 53, 54, 55, 56, 57]) == 0xe306_9283
  {
    hide Feed, Value;
    LastDigits();
    assert Complement(0x1cf9_6d7c) == 0xe306_9283;
    CheckValue4();
  }
}
