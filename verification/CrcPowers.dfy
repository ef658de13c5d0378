/** Constants of CRC-32C: what the register holds some bits after a single one. */
module CrcPowers {
  import opened Bytes
  import opened Crc32c

  // ---------- Advancing a register one bit of its argument at a time ----------

  predicate Has(x: bv32, m: bv32) { x & m != 0 }

  function Add(rest: bv32, o: bool, c: bv32): bv32 { Xor(rest, if o then c else 0) }

  // `rest`, and of four constants those that are picked.
  function MixFour(rest: bv32, o0: bool, o1: bool, o2: bool, o3: bool, c0: bv32, c1: bv32, c2: bv32, c3: bv32): bv32 {
    Add(Add(Add(Add(rest, o3, c3), o2, c2), o1, c1), o0, c0)
  }

  // `rest`, and of eight constants those that the binary digits of a byte pick.
  function Mix(rest: bv32, x: bv32, c0: bv32, c1: bv32, c2: bv32, c3: bv32,
               c4: bv32, c5: bv32, c6: bv32, c7: bv32): bv32 {
    MixFour(MixFour(rest, Has(x, 0x10), Has(x, 0x20), Has(x, 0x40), Has(x, 0x80), c4, c5, c6, c7),
            Has(x, 0x1), Has(x, 0x2), Has(x, 0x4), Has(x, 0x8), c0, c1, c2, c3)
  }

  lemma {:induction false} ShiftsOfZero(n: nat)
    ensures Shifts(0, n) == 0
  {
    if n > 0 {
      ShiftsOfZero(n - 1);
    }
  }

  lemma HalfFits(x: bv32)
    ensures Half(x) <= 0x7fff_ffff
  {
  }

  lemma ShiftsOfAdd(rest: bv32, o: bool, c: bv32, n: nat)
    ensures Shifts(Add(rest, o, c), n) == Add(Shifts(rest, n), o, Shifts(c, n))
  {
    hide Xor, Shifts;
    ShiftsLinear(rest, if o then c else 0, n);
    ShiftsOfZero(n);
  }

  lemma Peel(x: bv32, n: nat)
    requires n > 0
    ensures Shifts(x, n) == Add(Shifts(Half(x), n - 1), Odd(x), Shifts(1, n))
  {
    hide Xor, Double, Half, Odd, Shifts;
    Halved(x);
    HalfFits(x);
    DropOneShift(Half(x), n - 1);
    ShiftsOfAdd(Double(Half(x)), Odd(x), 1, n);
  }

  function LowerFour(x: bv32): bv32 { Half(Half(Half(Half(x)))) }

  lemma DigitsOfHalves(x: bv32)
    ensures Odd(x) == Has(x, 0x1) && Odd(Half(x)) == Has(x, 0x2)
    ensures Odd(Half(Half(x))) == Has(x, 0x4) && Odd(Half(Half(Half(x)))) == Has(x, 0x8)
    ensures Has(LowerFour(x), 0x1) == Has(x, 0x10) && Has(LowerFour(x), 0x2) == Has(x, 0x20)
    ensures Has(LowerFour(x), 0x4) == Has(x, 0x40) && Has(LowerFour(x), 0x8) == Has(x, 0x80)
  {
  }

  lemma ShiftsOfFour(x: bv32, n: nat)
    requires n >= 4
    ensures Shifts(x, n) == MixFour(Shifts(LowerFour(x), n - 4), Has(x, 0x1), Has(x, 0x2), Has(x, 0x4), Has(x, 0x8),
                                    Shifts(1, n), Shifts(1, n - 1), Shifts(1, n - 2), Shifts(1, n - 3))
  {
    hide Add, Half, Odd, Has, Shifts;
    DigitsOfHalves(x);
    Peel(x, n);
    Peel(Half(x), n - 1);
    Peel(Half(Half(x)), n - 2);
    Peel(Half(Half(Half(x))), n - 3);
  }

  lemma ShiftsOfByte(x: bv32, n: nat)
    requires n >= 8
    ensures Shifts(x, n)
            == Mix(Shifts(Lower(x), n - 8), x, Shifts(1, n), Shifts(1, n - 1), Shifts(1, n - 2), Shifts(1, n - 3),
                   Shifts(1, n - 4), Shifts(1, n - 5), Shifts(1, n - 6), Shifts(1, n - 7))
  {
    hide MixFour, Half, Odd, Has, Shifts;
    DigitsOfHalves(x);
    ShiftsOfFour(x, n);
    ShiftsOfFour(LowerFour(x), n - 4);
  }

  lemma ShiftsOfMixFour(rest: bv32, n: nat, o0: bool, o1: bool, o2: bool, o3: bool,
                        c0: bv32, c1: bv32, c2: bv32, c3: bv32)
    ensures Shifts(MixFour(rest, o0, o1, o2, o3, c0, c1, c2, c3), n)
            == MixFour(Shifts(rest, n), o0, o1, o2, o3, Shifts(c0, n), Shifts(c1, n), Shifts(c2, n), Shifts(c3, n))
  {
    hide Add, Shifts;
    ShiftsOfAdd(rest, o3, c3, n);
    ShiftsOfAdd(Add(rest, o3, c3), o2, c2, n);
    ShiftsOfAdd(Add(Add(rest, o3, c3), o2, c2), o1, c1, n);
    ShiftsOfAdd(Add(Add(Add(rest, o3, c3), o2, c2), o1, c1), o0, c0, n);
  }

  lemma ShiftsOfMixEight(rest: bv32, n: nat, o0: bool, o1: bool, o2: bool, o3: bool, o4: bool, o5: bool, o6: bool,
                         o7: bool, c0: bv32, c1: bv32, c2: bv32, c3: bv32, c4: bv32, c5: bv32, c6: bv32, c7: bv32)
    ensures Shifts(MixFour(MixFour(rest, o4, o5, o6, o7, c4, c5, c6, c7), o0, o1, o2, o3, c0, c1, c2, c3), n)
            == MixFour(MixFour(Shifts(rest, n), o4, o5, o6, o7, Shifts(c4, n), Shifts(c5, n), Shifts(c6, n), Shifts(c7, n)),
                       o0, o1, o2, o3, Shifts(c0, n), Shifts(c1, n), Shifts(c2, n), Shifts(c3, n))
  {
    hide MixFour, Shifts;
    ShiftsOfMixFour(rest, n, o4, o5, o6, o7, c4, c5, c6, c7);
    ShiftsOfMixFour(MixFour(rest, o4, o5, o6, o7, c4, c5, c6, c7), n, o0, o1, o2, o3, c0, c1, c2, c3);
  }

  lemma ShiftsOfMix(x: bv32, n: nat, c0: bv32, c1: bv32, c2: bv32, c3: bv32, c4: bv32, c5: bv32, c6: bv32, c7: bv32)
    ensures Shifts(Mix(0, x, c0, c1, c2, c3, c4, c5, c6, c7), n)
            == Mix(0, x, Shifts(c0, n), Shifts(c1, n), Shifts(c2, n), Shifts(c3, n),
                   Shifts(c4, n), Shifts(c5, n), Shifts(c6, n), Shifts(c7, n))
  {
    hide MixFour, Has, Shifts;
    ShiftsOfZero(n);
    var o0, o1, o2, o3 := Has(x, 0x1), Has(x, 0x2), Has(x, 0x4), Has(x, 0x8);
    var o4, o5, o6, o7 := Has(x, 0x10), Has(x, 0x20), Has(x, 0x40), Has(x, 0x80);
    assert Mix(0, x, c0, c1, c2, c3, c4, c5, c6, c7)
        == MixFour(MixFour(0, o4, o5, o6, o7, c4, c5, c6, c7), o0, o1, o2, o3, c0, c1, c2, c3);
    ShiftsOfMixEight(0, n, o0, o1, o2, o3, o4, o5, o6, o7, c0, c1, c2, c3, c4, c5, c6, c7);
  }

  // ---------- Constants ----------

  // `Shift` written out, so that literal arguments fold away.
  function Step(x: bv32): bv32 { (x >> 1) ^ if x & 1 == 1 then 0x82f6_3b78 else 0 }

  function StepByte(x: bv32): bv32 { Step(Step(Step(Step(Step(Step(Step(Step(x)))))))) }

  lemma StepIsShift(x: bv32)
    ensures Step(x) == Shift(x)
  {
    if x & 1 == 1 {
      assert Tap(x) == 0x82f6_3b78;
    } else {
      assert Tap(x) == 0;
    }
  }

  lemma Advance(x: bv32, n: nat)
    ensures Shifts(x, n + 1) == Step(Shifts(x, n))
  {
    hide Step, Shift;
    StepIsShift(Shifts(x, n));
  }

  lemma AdvanceByte(x: bv32, n: nat)
    ensures Shifts(x, n + 8) == StepByte(Shifts(x, n))
  {
    hide Step, Shifts;
    Advance(x, n);
    Advance(x, n + 1);
    Advance(x, n + 2);
    Advance(x, n + 3);
    Advance(x, n + 4);
    Advance(x, n + 5);
    Advance(x, n + 6);
    Advance(x, n + 7);
  }

  lemma NoShift(x: bv32)
    ensures Shifts(x, 0) == x
  {
  }

  lemma PowerOf64()
    ensures Shifts(1, 64) == 0x493c_7d27
  {
    hide Shifts;
    assert Shifts(1, 0) == 1 by { NoShift(1); }
    AdvanceByte(1, 0);
    AdvanceByte(1, 8);
    AdvanceByte(1, 16);
    AdvanceByte(1, 24);
    AdvanceByte(1, 32);
    AdvanceByte(1, 40);
    AdvanceByte(1, 48);
    AdvanceByte(1, 56);
    assert StepByte(1) == 0xf26b_8303 && StepByte(0xf26b_8303) == 0x13a2_9877;
    assert StepByte(0x13a2_9877) == 0xa541_927e && StepByte(0xa541_927e) == 0xdd45_aab8;
    assert StepByte(0xdd45_aab8) == 0x3811_6fac && StepByte(0x3811_6fac) == 0xef30_6b19;
    assert StepByte(0xef30_6b19) == 0x6803_2cc8 && StepByte(0x6803_2cc8) == 0x493c_7d27;
  }

  lemma PowerOf128()
    ensures Shifts(1, 128) == 0xf20c_0dfe
  {
    hide Shifts;
    PowerOf64();
    AdvanceByte(1, 64);
    AdvanceByte(1, 72);
    AdvanceByte(1, 80);
    AdvanceByte(1, 88);
    AdvanceByte(1, 96);
    AdvanceByte(1, 104);
    AdvanceByte(1, 112);
    AdvanceByte(1, 120);
    assert StepByte(0x493c_7d27) == 0xf43e_d648 && StepByte(0xf43e_d648) == 0xcb56_7ba5;
    assert StepByte(0xcb56_7ba5) == 0x9771_f7c1 && StepByte(0x9771_f7c1) == 0x3171_d430;
    assert StepByte(0x3171_d430) == 0x30d2_3865 && StepByte(0x30d2_3865) == 0x5407_5546;
    assert StepByte(0x5407_5546) == 0x678e_fd01 && StepByte(0x678e_fd01) == 0xf20c_0dfe;
  }

  lemma PowerOf192()
    ensures Shifts(1, 192) == 0xba4f_c28e
  {
    hide Shifts;
    PowerOf128();
    AdvanceByte(1, 128);
    AdvanceByte(1, 136);
    AdvanceByte(1, 144);
    AdvanceByte(1, 152);
    AdvanceByte(1, 160);
    AdvanceByte(1, 168);
    AdvanceByte(1, 176);
    AdvanceByte(1, 184);
    assert StepByte(0xf20c_0dfe) == 0x5fe4_dc5f && StepByte(0x5fe4_dc5f) == 0x0f69_022b;
    assert StepByte(0x0f69_022b) == 0xb93b_4ce7 && StepByte(0xb93b_4ce7) == 0x3743_f7bd;
    assert StepByte(0x3743_f7bd) == 0x0d0a_7ded && StepByte(0x0d0a_7ded) == 0x5c15_eeb4;
    assert StepByte(0x5c15_eeb4) == 0x75d3_f038 && StepByte(0x75d3_f038) == 0xba4f_c28e;
  }

  lemma PowerOf256()
    ensures Shifts(1, 256) == 0x3da6_d0cb
  {
    hide Shifts;
    PowerOf192();
    AdvanceByte(1, 192);
    AdvanceByte(1, 200);
    AdvanceByte(1, 208);
    AdvanceByte(1, 216);
    AdvanceByte(1, 224);
    AdvanceByte(1, 232);
    AdvanceByte(1, 240);
    AdvanceByte(1, 248);
    assert StepByte(0xba4f_c28e) == 0x2e34_cb9d && StepByte(0x2e34_cb9d) == 0x2dae_840f;
    assert StepByte(0x2dae_840f) == 0x5e3e_92a0 && StepByte(0x5e3e_92a0) == 0xa215_8b34;
    assert StepByte(0xa215_8b34) == 0xf7db_cb25 && StepByte(0xf7db_cb25) == 0x15bb_4109;
    assert StepByte(0x15bb_4109) == 0x78a7_608d && StepByte(0x78a7_608d) == 0x3da6_d0cb;
  }

  lemma PowersTo8()
    ensures Shifts(1, 1) == 0x82f6_3b78 && Shifts(1, 2) == 0x417b_1dbc && Shifts(1, 3) == 0x20bd_8ede &&
            Shifts(1, 4) == 0x105e_c76f
    ensures Shifts(1, 5) == 0x8ad9_58cf && Shifts(1, 6) == 0xc79a_971f && Shifts(1, 7) == 0xe13b_70f7 &&
            Shifts(1, 8) == 0xf26b_8303
  {
    hide Shifts;
    NoShift(1);
    Advance(1, 0);
    Advance(1, 1);
    Advance(1, 2);
    Advance(1, 3);
    Advance(1, 4);
    Advance(1, 5);
    Advance(1, 6);
    Advance(1, 7);
    assert Step(1) == 0x82f6_3b78 && Step(0x82f6_3b78) == 0x417b_1dbc && Step(0x417b_1dbc) == 0x20bd_8ede;
    assert Step(0x20bd_8ede) == 0x105e_c76f && Step(0x105e_c76f) == 0x8ad9_58cf && Step(0x8ad9_58cf) == 0xc79a_971f;
    assert Step(0xc79a_971f) == 0xe13b_70f7 && Step(0xe13b_70f7) == 0xf26b_8303;
  }

  lemma PowersTo16()
    ensures Shifts(1, 9) == 0xfbc3_faf9 && Shifts(1, 10) == 0xff17_c604 && Shifts(1, 11) == 0x7f8b_e302 &&
            Shifts(1, 12) == 0x3fc5_f181
    ensures Shifts(1, 13) == 0x9d14_c3b8 && Shifts(1, 14) == 0x4e8a_61dc && Shifts(1, 15) == 0x2745_30ee &&
            Shifts(1, 16) == 0x13a2_9877
  {
    hide Shifts;
    PowersTo8();
    Advance(1, 8);
    Advance(1, 9);
    Advance(1, 10);
    Advance(1, 11);
    Advance(1, 12);
    Advance(1, 13);
    Advance(1, 14);
    Advance(1, 15);
    assert Step(0xf26b_8303) == 0xfbc3_faf9 && Step(0xfbc3_faf9) == 0xff17_c604 && Step(0xff17_c604) == 0x7f8b_e302;
    assert Step(0x7f8b_e302) == 0x3fc5_f181 && Step(0x3fc5_f181) == 0x9d14_c3b8 && Step(0x9d14_c3b8) == 0x4e8a_61dc;
    assert Step(0x4e8a_61dc) == 0x2745_30ee && Step(0x2745_30ee) == 0x13a2_9877;
  }

  lemma PowerOf272()
    ensures Shifts(1, 272) == 0x7ef4_8bd1
  {
    hide Shifts;
    PowerOf256();
    AdvanceByte(1, 256);
    AdvanceByte(1, 264);
    assert StepByte(0x3da6_d0cb) == 0x5a39_2b2f && StepByte(0x5a39_2b2f) == 0x7ef4_8bd1;
  }

  lemma PowersTo280()
    ensures Shifts(1, 273) == 0xbd8c_7e90 && Shifts(1, 274) == 0x5ec6_3f48 && Shifts(1, 275) == 0x2f63_1fa4 &&
            Shifts(1, 276) == 0x17b1_8fd2
    ensures Shifts(1, 277) == 0x0bd8_c7e9 && Shifts(1, 278) == 0x871a_588c && Shifts(1, 279) == 0x438d_2c46 &&
            Shifts(1, 280) == 0x21c6_9623
  {
    hide Shifts;
    PowerOf272();
    Advance(1, 272);
    Advance(1, 273);
    Advance(1, 274);
    Advance(1, 275);
    Advance(1, 276);
    Advance(1, 277);
    Advance(1, 278);
    Advance(1, 279);
    assert Step(0x7ef4_8bd1) == 0xbd8c_7e90 && Step(0xbd8c_7e90) == 0x5ec6_3f48 && Step(0x5ec6_3f48) == 0x2f63_1fa4;
    assert Step(0x2f63_1fa4) == 0x17b1_8fd2 && Step(0x17b1_8fd2) == 0x0bd8_c7e9 && Step(0x0bd8_c7e9) == 0x871a_588c;
    assert Step(0x871a_588c) == 0x438d_2c46 && Step(0x438d_2c46) == 0x21c6_9623;
  }

  lemma PowersTo288()
    ensures Shifts(1, 281) == 0x9215_7069 && Shifts(1, 282) == 0xcbfc_834c && Shifts(1, 283) == 0x65fe_41a6 &&
            Shifts(1, 284) == 0x32ff_20d3
    ensures Shifts(1, 285) == 0x9b89_ab11 && Shifts(1, 286) == 0xcf32_eef0 && Shifts(1, 287) == 0x6799_7778 &&
            Shifts(1, 288) == 0x33cc_bbbc
  {
    hide Shifts;
    PowersTo280();
    Advance(1, 280);
    Advance(1, 281);
    Advance(1, 282);
    Advance(1, 283);
    Advance(1, 284);
    Advance(1, 285);
    Advance(1, 286);
    Advance(1, 287);
    assert Step(0x21c6_9623) == 0x9215_7069 && Step(0x9215_7069) == 0xcbfc_834c && Step(0xcbfc_834c) == 0x65fe_41a6;
    assert Step(0x65fe_41a6) == 0x32ff_20d3 && Step(0x32ff_20d3) == 0x9b89_ab11 && Step(0x9b89_ab11) == 0xcf32_eef0;
    assert Step(0xcf32_eef0) == 0x6799_7778 && Step(0x6799_7778) == 0x33cc_bbbc;
  }

  lemma TopPowers()
    ensures Shifts(0x8000_0000, 1) == 0x4000_0000 && Shifts(0x8000_0000, 2) == 0x2000_0000 &&
            Shifts(0x8000_0000, 3) == 0x1000_0000 && Shifts(0x8000_0000, 4) == 0x0800_0000
    ensures Shifts(0x8000_0000, 5) == 0x0400_0000 && Shifts(0x8000_0000, 6) == 0x0200_0000 &&
            Shifts(0x8000_0000, 7) == 0x0100_0000
  {
    hide Shifts;
    NoShift(0x8000_0000);
    Advance(0x8000_0000, 0);
    Advance(0x8000_0000, 1);
    Advance(0x8000_0000, 2);
    Advance(0x8000_0000, 3);
    Advance(0x8000_0000, 4);
    Advance(0x8000_0000, 5);
    Advance(0x8000_0000, 6);
    assert Step(0x8000_0000) == 0x4000_0000 && Step(0x4000_0000) == 0x2000_0000 && Step(0x2000_0000) == 0x1000_0000;
    assert Step(0x1000_0000) == 0x0800_0000 && Step(0x0800_0000) == 0x0400_0000 && Step(0x0400_0000) == 0x0200_0000;
    assert Step(0x0200_0000) == 0x0100_0000;
  }

  lemma Root24()
    ensures Shifts(0xdd36_fbfc, 24) == 0x8000_0000
  {
    hide Shifts;
    NoShift(0xdd36_fbfc);
    AdvanceByte(0xdd36_fbfc, 0);
    AdvanceByte(0xdd36_fbfc, 8);
    AdvanceByte(0xdd36_fbfc, 16);
    assert StepByte(0xdd36_fbfc) == 0xbef0_965e && StepByte(0xbef0_965e) == 0xfde3_9562;
    assert StepByte(0xfde3_9562) == 0x8000_0000;
  }

  lemma Roots24()
    ensures Shifts(0xdd36_fbfc, 1) == 0x6e9b_7dfe && Shifts(0xdd36_fbfc, 2) == 0x374d_beff &&
            Shifts(0xdd36_fbfc, 3) == 0x9950_e407 && Shifts(0xdd36_fbfc, 4) == 0xce5e_497b
    ensures Shifts(0xdd36_fbfc, 5) == 0xe5d9_1fc5 && Shifts(0xdd36_fbfc, 6) == 0xf01a_b49a &&
            Shifts(0xdd36_fbfc, 7) == 0x780d_5a4d
  {
    hide Shifts;
    NoShift(0xdd36_fbfc);
    Advance(0xdd36_fbfc, 0);
    Advance(0xdd36_fbfc, 1);
    Advance(0xdd36_fbfc, 2);
    Advance(0xdd36_fbfc, 3);
    Advance(0xdd36_fbfc, 4);
    Advance(0xdd36_fbfc, 5);
    Advance(0xdd36_fbfc, 6);
    assert Step(0xdd36_fbfc) == 0x6e9b_7dfe && Step(0x6e9b_7dfe) == 0x374d_beff && Step(0x374d_beff) == 0x9950_e407;
    assert Step(0x9950_e407) == 0xce5e_497b && Step(0xce5e_497b) == 0xe5d9_1fc5 && Step(0xe5d9_1fc5) == 0xf01a_b49a;
    assert Step(0xf01a_b49a) == 0x780d_5a4d;
  }

  lemma Root296At64()
    ensures Shifts(0xd731_a617, 64) == 0x1793_8077
  {
    hide Shifts;
    NoShift(0xd731_a617);
    AdvanceByte(0xd731_a617, 0);
    AdvanceByte(0xd731_a617, 8);
    AdvanceByte(0xd731_a617, 16);
    AdvanceByte(0xd731_a617, 24);
    AdvanceByte(0xd731_a617, 32);
    AdvanceByte(0xd731_a617, 40);
    AdvanceByte(0xd731_a617, 48);
    AdvanceByte(0xd731_a617, 56);
    assert StepByte(0xd731_a617) == 0xc443_9222 && StepByte(0xc443_9222) == 0xc142_bdbb;
    assert StepByte(0xc142_bdbb) == 0x2b5d_9b4f && StepByte(0x2b5d_9b4f) == 0x1f43_7c03;
    assert StepByte(0x1f43_7c03) == 0x134f_b088 && StepByte(0x134f_b088) == 0x083c_2c07;
    assert StepByte(0x083c_2c07) == 0xd4c2_58c7 && StepByte(0xd4c2_58c7) == 0x1793_8077;
  }

  lemma Root296At128()
    ensures Shifts(0xd731_a617, 128) == 0x53ad_8f4a
  {
    hide Shifts;
    Root296At64();
    AdvanceByte(0xd731_a617, 64);
    AdvanceByte(0xd731_a617, 72);
    AdvanceByte(0xd731_a617, 80);
    AdvanceByte(0xd731_a617, 88);
    AdvanceByte(0xd731_a617, 96);
    AdvanceByte(0xd731_a617, 104);
    AdvanceByte(0xd731_a617, 112);
    AdvanceByte(0xd731_a617, 120);
    assert StepByte(0x1793_8077) == 0xa545_a366 && StepByte(0xa545_a366) == 0x47c2_3129;
    assert StepByte(0x47c2_3129) == 0x5848_9723 && StepByte(0x5848_9723) == 0x33b5_35bd;
    assert StepByte(0x33b5_35bd) == 0x0d0e_8b2f && StepByte(0x0d0e_8b2f) == 0x7ea3_bc71;
    assert StepByte(0x7ea3_bc71) == 0x838d_74b2 && StepByte(0x838d_74b2) == 0x53ad_8f4a;
  }

  lemma Root296At192()
    ensures Shifts(0xd731_a617, 192) == 0x389a_282b
  {
    hide Shifts;
    Root296At128();
    AdvanceByte(0xd731_a617, 128);
    AdvanceByte(0xd731_a617, 136);
    AdvanceByte(0xd731_a617, 144);
    AdvanceByte(0xd731_a617, 152);
    AdvanceByte(0xd731_a617, 160);
    AdvanceByte(0xd731_a617, 168);
    AdvanceByte(0xd731_a617, 176);
    AdvanceByte(0xd731_a617, 184);
    assert StepByte(0x53ad_8f4a) == 0x2aca_980b && StepByte(0x2aca_980b) == 0x99a3_61a3;
    assert StepByte(0x99a3_61a3) == 0xb182_e533 && StepByte(0xb182_e533) == 0x2302_38a0;
    assert StepByte(0x2302_38a0) == 0xa268_b79e && StepByte(0xa268_b79e) == 0x3e72_2b87;
    assert StepByte(0x3e72_2b87) == 0x5602_2db8 && StepByte(0x5602_2db8) == 0x389a_282b;
  }

  lemma Root296At256()
    ensures Shifts(0xd731_a617, 256) == 0xd16a_78e5
  {
    hide Shifts;
    Root296At192();
    AdvanceByte(0xd731_a617, 192);
    AdvanceByte(0xd731_a617, 200);
    AdvanceByte(0xd731_a617, 208);
    AdvanceByte(0xd731_a617, 216);
    AdvanceByte(0xd731_a617, 224);
    AdvanceByte(0xd731_a617, 232);
    AdvanceByte(0xd731_a617, 240);
    AdvanceByte(0xd731_a617, 248);
    assert StepByte(0x389a_282b) == 0xb90c_bfcd && StepByte(0xb90c_bfcd) == 0x7c1c_66a8;
    assert StepByte(0x7c1c_66a8) == 0x28ee_f10f && StepByte(0x28ee_f10f) == 0x5e3b_d2d5;
    assert StepByte(0x5e3b_d2d5) == 0xe67c_ce65 && StepByte(0xe67c_ce65) == 0x54d1_fbb0;
    assert StepByte(0x54d1_fbb0) == 0xb241_a332 && StepByte(0xb241_a332) == 0xd16a_78e5;
  }

  lemma Root296()
    ensures Shifts(0xd731_a617, 296) == 0x8000_0000
  {
    hide Shifts;
    Root296At256();
    AdvanceByte(0xd731_a617, 256);
    AdvanceByte(0xd731_a617, 264);
    AdvanceByte(0xd731_a617, 272);
    AdvanceByte(0xd731_a617, 280);
    AdvanceByte(0xd731_a617, 288);
    assert StepByte(0xd16a_78e5) == 0xd610_d67e && StepByte(0xd610_d67e) == 0xdd36_fbfc;
    assert StepByte(0xdd36_fbfc) == 0xbef0_965e && StepByte(0xbef0_965e) == 0xfde3_9562;
    assert StepByte(0xfde3_9562) == 0x8000_0000;
  }

  lemma Roots296()
    ensures Shifts(0xd731_a617, 1) == 0xe96e_e873 && Shifts(0xd731_a617, 2) == 0xf641_4f41 &&
            Shifts(0xd731_a617, 3) == 0xf9d6_9cd8 && Shifts(0xd731_a617, 4) == 0x7ceb_4e6c
    ensures Shifts(0xd731_a617, 5) == 0x3e75_a736 && Shifts(0xd731_a617, 6) == 0x1f3a_d39b &&
            Shifts(0xd731_a617, 7) == 0x8d6b_52b5
  {
    hide Shifts;
    NoShift(0xd731_a617);
    Advance(0xd731_a617, 0);
    Advance(0xd731_a617, 1);
    Advance(0xd731_a617, 2);
    Advance(0xd731_a617, 3);
    Advance(0xd731_a617, 4);
    Advance(0xd731_a617, 5);
    Advance(0xd731_a617, 6);
    assert Step(0xd731_a617) == 0xe96e_e873 && Step(0xe96e_e873) == 0xf641_4f41 && Step(0xf641_4f41) == 0xf9d6_9cd8;
    assert Step(0xf9d6_9cd8) == 0x7ceb_4e6c && Step(0x7ceb_4e6c) == 0x3e75_a736 && Step(0x3e75_a736) == 0x1f3a_d39b;
    assert Step(0x1f3a_d39b) == 0x8d6b_52b5;
  }
}
