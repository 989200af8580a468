/**
 The powers of x by squaring: the 32 entries of zlib's table (dep/zlib/crc32.h:9439-9446), that each is the square of
 the one before it, and that the first is the square of the last, so the table may be entered again from its start.
 */
module CrcPowers {
  import opened CrcField
  import opened CrcWord
  import opened Powers

  function Pick(a: bv32, m: bv32, b: bv32): bv32 { if a & m != 0 then b else 0 }

  function Next(b: bv32): bv32 { if b & 1 == 1 then (b >> 1) ^ POLY else b >> 1 }

  function X4(b: bv32): bv32 { Next(Next(Next(Next(b)))) }

  function X8(b: bv32): bv32 { X4(X4(b)) }

  function Two(a: bv32, b: bv32, m: bv32): bv32 { Pick(a, m, b) ^ Pick(a, m >> 1, Next(b)) }

  function Four(a: bv32, b: bv32, m: bv32): bv32 { Two(a, b, m) ^ Two(a, Next(Next(b)), m >> 2) }

  function Eight(a: bv32, b: bv32, m: bv32): bv32 { Four(a, b, m) ^ Four(a, X4(b), m >> 4) }

  /** The product written out, for evaluating it on given words. */
  function Written(a: bv32, b: bv32): bv32 {
    Xor(Xor(Eight(a, b, 0x8000_0000), Eight(a, X8(b), 0x80_0000)),
        Xor(Eight(a, X8(X8(b)), 0x8000), Eight(a, X8(X8(X8(b))), 0x80)))
  }

  const X2N: seq<bv32> := [
    0x4000_0000, 0x2000_0000, 0x0800_0000, 0x0080_0000, 0x0000_8000, 0xedb8_8320, 0xb1e6_b092, 0xa06a_2517,
    0xed62_7dae, 0x88d1_4467, 0xd7bb_fe6a, 0xec44_7f11, 0x8e7e_a170, 0x6427_800e, 0x4d47_bae0, 0x09fe_548f,
    0x8385_2d0f, 0x3036_2f1a, 0x7b5a_9cc3, 0x31fe_c169, 0x9fec_022a, 0x6c8d_edc4, 0x15d6_874d, 0x5fde_7a4e,
    0xbad9_0e37, 0x2e4e_5eef, 0x4eab_a214, 0xa8a4_72c0, 0x429a_969e, 0x148d_302a, 0xc40b_a6d0, 0xc4e2_2c3c
  ]

  lemma Square0() ensures Written(0x4000_0000, 0x4000_0000) == 0x2000_0000 {}
  lemma Square1() ensures Written(0x2000_0000, 0x2000_0000) == 0x0800_0000 {}
  lemma Square2() ensures Written(0x0800_0000, 0x0800_0000) == 0x0080_0000 {}
  lemma Square3() ensures Written(0x0080_0000, 0x0080_0000) == 0x0000_8000 {}
  lemma Square4() ensures Written(0x0000_8000, 0x0000_8000) == 0xedb8_8320 {}
  lemma Square5() ensures Written(0xedb8_8320, 0xedb8_8320) == 0xb1e6_b092 {}
  lemma Square6() ensures Written(0xb1e6_b092, 0xb1e6_b092) == 0xa06a_2517 {}
  lemma Square7()
    ensures Written(0xa06a_2517, 0xa06a_2517) == 0xed62_7dae
  {
    assert X8(0xa06a_2517) == 0x8373_efe2 && X8(0x8373_efe2) == 0x4e87_f0bb && X8(0x4e87_f0bb) == 0x5cfd_edf4;
    assert Eight(0xa06a_2517, 0xa06a_2517, 0x8000_0000) == 0x1314_6ee2;
    assert Eight(0xa06a_2517, 0x8373_efe2, 0x80_0000) == 0x5eea_55b2;
    assert Eight(0xa06a_2517, 0x4e87_f0bb, 0x8000) == 0xbb42_8015;
    assert Eight(0xa06a_2517, 0x5cfd_edf4, 0x80) == 0x1bde_c6eb;
  }
  lemma Square8() ensures Written(0xed62_7dae, 0xed62_7dae) == 0x88d1_4467 {}
  lemma Square9()
    ensures Written(0x88d1_4467, 0x88d1_4467) == 0xd7bb_fe6a
  {
    assert X8(0x88d1_4467) == 0xd35e_25bf && X8(0xd35e_25bf) == 0x5b0d_f038 && X8(0x5b0d_f038) == 0x2859_b56e;
    assert Eight(0x88d1_4467, 0x88d1_4467, 0x8000_0000) == 0xd059_211d;
    assert Eight(0x88d1_4467, 0xd35e_25bf, 0x80_0000) == 0x5b33_72ff;
    assert Eight(0x88d1_4467, 0x5b0d_f038, 0x8000) == 0xb43a_552d;
    assert Eight(0x88d1_4467, 0x2859_b56e, 0x80) == 0xe8eb_f8a5;
  }
  lemma Square10() ensures Written(0xd7bb_fe6a, 0xd7bb_fe6a) == 0xec44_7f11 {}
  lemma Square11() ensures Written(0xec44_7f11, 0xec44_7f11) == 0x8e7e_a170 {}
  lemma Square12() ensures Written(0x8e7e_a170, 0x8e7e_a170) == 0x6427_800e {}
  lemma Square13() ensures Written(0x6427_800e, 0x6427_800e) == 0x4d47_bae0 {}
  lemma Square14() ensures Written(0x4d47_bae0, 0x4d47_bae0) == 0x09fe_548f {}
  lemma Square15()
    ensures Written(0x09fe_548f, 0x09fe_548f) == 0x8385_2d0f
  {
    assert X8(0x09fe_548f) == 0x7d0e_60e5 && X8(0x7d0e_60e5) == 0xd01d_1897 && X8(0xd01d_1897) == 0x6ebb_1bff;
    assert Eight(0x09fe_548f, 0x09fe_548f, 0x8000_0000) == 0x473e_d69e;
    assert Eight(0x09fe_548f, 0x7d0e_60e5, 0x80_0000) == 0xb2a9_6733;
    assert Eight(0x09fe_548f, 0xd01d_1897, 0x8000) == 0xfc85_9d7b;
    assert Eight(0x09fe_548f, 0x6ebb_1bff, 0x80) == 0x8a97_01d9;
  }
  lemma Square16()
    ensures Written(0x8385_2d0f, 0x8385_2d0f) == 0x3036_2f1a
  {
    assert X8(0x8385_2d0f) == 0x903c_98bc && X8(0x903c_98bc) == 0xc247_c33f && X8(0xc247_c33f) == 0xb6a4_6afe;
    assert Eight(0x8385_2d0f, 0x8385_2d0f, 0x8000_0000) == 0x55ec_7205;
    assert Eight(0x8385_2d0f, 0x903c_98bc, 0x80_0000) == 0x6b49_1e3e;
    assert Eight(0x8385_2d0f, 0xc247_c33f, 0x8000) == 0x1921_2bda;
    assert Eight(0x8385_2d0f, 0xb6a4_6afe, 0x80) == 0x17b2_68fb;
  }
  lemma Square17() ensures Written(0x3036_2f1a, 0x3036_2f1a) == 0x7b5a_9cc3 {}
  lemma Square18() ensures Written(0x7b5a_9cc3, 0x7b5a_9cc3) == 0x31fe_c169 {}
  lemma Square19()
    ensures Written(0x31fe_c169, 0x31fe_c169) == 0x9fec_022a
  {
    assert X8(0x31fe_c169) == 0x345f_273d && X8(0x345f_273d) == 0x585c_1336 && X8(0x585c_1336) == 0xcfe2_c98a;
    assert Eight(0x31fe_c169, 0x31fe_c169, 0x8000_0000) == 0x2f4c_4755;
    assert Eight(0x31fe_c169, 0x345f_273d, 0x80_0000) == 0xf8ba_019e;
    assert Eight(0x31fe_c169, 0x585c_1336, 0x8000) == 0x30c6_8ff8;
    assert Eight(0x31fe_c169, 0xcfe2_c98a, 0x80) == 0x78dc_cb19;
  }
  lemma Square20()
    ensures Written(0x9fec_022a, 0x9fec_022a) == 0x6c8d_edc4
  {
    assert X8(0x9fec_022a) == 0xdb24_25d4 && X8(0xdb24_25d4) == 0x8165_32e8 && X8(0x8165_32e8) == 0xae50_0f78;
    assert Eight(0x9fec_022a, 0x9fec_022a, 0x8000_0000) == 0xfd3a_47eb;
    assert Eight(0x9fec_022a, 0xdb24_25d4, 0x80_0000) == 0x2b1e_bf40;
    assert Eight(0x9fec_022a, 0x8165_32e8, 0x8000) == 0xd4d3_3723;
    assert Eight(0x9fec_022a, 0xae50_0f78, 0x80) == 0x6e7a_224c;
  }
  lemma Square21() ensures Written(0x6c8d_edc4, 0x6c8d_edc4) == 0x15d6_874d {}
  lemma Square22() ensures Written(0x15d6_874d, 0x15d6_874d) == 0x5fde_7a4e {}
  lemma Square23() ensures Written(0x5fde_7a4e, 0x5fde_7a4e) == 0xbad9_0e37 {}
  lemma Square24()
    ensures Written(0xbad9_0e37, 0xbad9_0e37) == 0x2e4e_5eef
  {
    assert X8(0xbad9_0e37) == 0xb807_7c01 && X8(0xb807_7c01) == 0x77bf_37ea && X8(0x77bf_37ea) == 0x40a8_b451;
    assert Eight(0xbad9_0e37, 0xbad9_0e37, 0x8000_0000) == 0x6e7c_57ac;
    assert Eight(0xbad9_0e37, 0xb807_7c01, 0x80_0000) == 0xdc9b_8619;
    assert Eight(0xbad9_0e37, 0x77bf_37ea, 0x8000) == 0x60a8_2fd8;
    assert Eight(0xbad9_0e37, 0x40a8_b451, 0x80) == 0xfc01_a082;
  }
  lemma Square25()
    ensures Written(0x2e4e_5eef, 0x2e4e_5eef) == 0x4eab_a214
  {
    assert X8(0x2e4e_5eef) == 0x309b_b1b7 && X8(0x309b_b1b7) == 0x5535_bd9e && X8(0x5535_bd9e) == 0x17e2_8bfe;
    assert Eight(0x2e4e_5eef, 0x2e4e_5eef, 0x8000_0000) == 0xb26c_0fdc;
    assert Eight(0x2e4e_5eef, 0x309b_b1b7, 0x80_0000) == 0xed60_87d6;
    assert Eight(0x2e4e_5eef, 0x5535_bd9e, 0x8000) == 0xfe9f_6265;
    assert Eight(0x2e4e_5eef, 0x17e2_8bfe, 0x80) == 0xef38_487b;
  }
  lemma Square26() ensures Written(0x4eab_a214, 0x4eab_a214) == 0xa8a4_72c0 {}
  lemma Square27() ensures Written(0xa8a4_72c0, 0xa8a4_72c0) == 0x429a_969e {}
  lemma Square28()
    ensures Written(0x429a_969e, 0x429a_969e) == 0x148d_302a
  {
    assert X8(0x429a_969e) == 0x17f5_24d5 && X8(0x17f5_24d5) == 0xf6ae_d37f && X8(0xf6ae_d37f) == 0xc04c_c27e;
    assert Eight(0x429a_969e, 0x429a_969e, 0x8000_0000) == 0x7e99_d81b;
    assert Eight(0x429a_969e, 0x17f5_24d5, 0x80_0000) == 0xc590_6160;
    assert Eight(0x429a_969e, 0xf6ae_d37f, 0x8000) == 0x4b73_e2a7;
    assert Eight(0x429a_969e, 0xc04c_c27e, 0x80) == 0xe4f7_6bf6;
  }
  lemma Square29() ensures Written(0x148d_302a, 0x148d_302a) == 0xc40b_a6d0 {}
  lemma Square30() ensures Written(0xc40b_a6d0, 0xc40b_a6d0) == 0xc4e2_2c3c {}
  lemma Square31()
    ensures Written(0xc4e2_2c3c, 0xc4e2_2c3c) == 0x4000_0000
  {
    assert X8(0xc4e2_2c3c) == 0x2fab_9eab && X8(0x2fab_9eab) == 0x412b_d1fe && X8(0x412b_d1fe) == 0x5a44_f4ca;
    assert Eight(0xc4e2_2c3c, 0xc4e2_2c3c, 0x8000_0000) == 0x00be_c93b;
    assert Eight(0xc4e2_2c3c, 0x2fab_9eab, 0x80_0000) == 0x9a96_b67d;
    assert Eight(0xc4e2_2c3c, 0x412b_d1fe, 0x8000) == 0xe65e_84ab;
    assert Eight(0xc4e2_2c3c, 0x5a44_f4ca, 0x80) == 0x3c76_fbed;
  }

  // ----- the written-out product is the product ----------------------------------------------------------------

  lemma NextIs(b: bv32)
    ensures Next(b) == MulX(b)
  {
  }

  lemma PickIs(a: bv32, m: bv32, b: bv32)
    ensures Pick(a, m, b) == if Bit(a, m) then b else 0
  {
  }

  lemma TwoIs(a: bv32, b: bv32, m: bv32)
    ensures Two(a, b, m) == Xor(Pick(a, m, b), Pick(a, Half(m), MulX(b)))
  {
    hide *;
    NextIs(b);
    TwoBody(a, b, m);
  }

  lemma TwoBody(a: bv32, b: bv32, m: bv32)
    ensures Two(a, b, m) == Xor(Pick(a, m, b), Pick(a, Half(m), Next(b)))
  {
    hide *;
    TwoRaw(a, b, m);
    XorRaw(Pick(a, m, b), Pick(a, m >> 1, Next(b)));
    HalfRaw(m);
  }

  lemma TwoRaw(a: bv32, b: bv32, m: bv32)
    ensures Two(a, b, m) == Pick(a, m, b) ^ Pick(a, m >> 1, Next(b))
  {
    hide Pick, Next;
  }

  lemma XorRaw(c: bv32, d: bv32)
    ensures Xor(c, d) == c ^ d
  {
  }

  lemma HalfRaw(m: bv32)
    ensures Half(m) == m >> 1 && Half(Half(m)) == m >> 2 && Half(Half(Half(Half(m)))) == m >> 4
  {
  }

  lemma FourIs(a: bv32, b: bv32, m: bv32)
    ensures Four(a, b, m) == Xor(Two(a, b, m), Two(a, Next(Next(b)), Half(Half(m))))
  {
    hide *;
    FourRaw(a, b, m);
    XorRaw(Two(a, b, m), Two(a, Next(Next(b)), m >> 2));
    HalfRaw(m);
  }

  lemma FourRaw(a: bv32, b: bv32, m: bv32)
    ensures Four(a, b, m) == Two(a, b, m) ^ Two(a, Next(Next(b)), m >> 2)
  {
    hide Two, Next;
  }

  lemma EightIs(a: bv32, b: bv32, m: bv32)
    ensures Eight(a, b, m) == Xor(Four(a, b, m), Four(a, X4(b), Half(Half(Half(Half(m))))))
  {
    hide *;
    EightRaw(a, b, m);
    XorRaw(Four(a, b, m), Four(a, X4(b), m >> 4));
    HalfRaw(m);
  }

  lemma EightRaw(a: bv32, b: bv32, m: bv32)
    ensures Eight(a, b, m) == Four(a, b, m) ^ Four(a, X4(b), m >> 4)
  {
    hide Four, X4;
  }

  lemma SumTwo(a: bv32, b: bv32, m: bv32)
    requires m != 0 && Half(m) != 0
    ensures Sum(a, b, m) == Xor(Two(a, b, m), Sum(a, Next(Next(b)), Half(Half(m))))
  {
    hide *;
    SumIs(a, b, m);
    SumIs(a, MulX(b), Half(m));
    PickIs(a, m, b);
    PickIs(a, Half(m), MulX(b));
    TwoIs(a, b, m);
    NextIs(b);
    NextIs(MulX(b));
    Assoc(Pick(a, m, b), Pick(a, Half(m), MulX(b)), Sum(a, MulX(MulX(b)), Half(Half(m))));
  }

  lemma SumFour(a: bv32, b: bv32, m: bv32)
    requires m != 0 && Half(m) != 0 && Half(Half(m)) != 0 && Half(Half(Half(m))) != 0
    ensures Sum(a, b, m) == Xor(Four(a, b, m), Sum(a, X4(b), Half(Half(Half(Half(m))))))
  {
    hide *;
    X4Is(b);
    FourIs(a, b, m);
    SumTwo(a, b, m);
    var c, n := Next(Next(b)), Half(Half(m));
    SumTwo(a, c, n);
    Assoc(Two(a, b, m), Two(a, c, n), Sum(a, Next(Next(c)), Half(Half(n))));
  }

  lemma X4Is(b: bv32)
    ensures X4(b) == Next(Next(Next(Next(b)))) && X8(b) == X4(X4(b))
  {
    hide Next;
  }

  /** The mask moved down eight places, which it can be without coming to nothing on the way. */
  ghost predicate Room(m: bv32, down: bv32) {
    && m != 0 && Half(m) != 0 && Half(Half(m)) != 0 && Half(Half(Half(m))) != 0
    && RoomBelow(Half(Half(Half(Half(m)))), down)
  }

  ghost predicate RoomBelow(n: bv32, down: bv32) {
    n != 0 && Half(n) != 0 && Half(Half(n)) != 0 && Half(Half(Half(n))) != 0 && Half(Half(Half(Half(n)))) == down
  }

  lemma SumEight(a: bv32, b: bv32, m: bv32, down: bv32)
    requires Room(m, down)
    ensures Sum(a, b, m) == Xor(Eight(a, b, m), Sum(a, X8(b), down))
  {
    hide Sum, Four, X4, X8, Eight, Xor, Half;
    X4Is(b);
    EightIs(a, b, m);
    SumFour(a, b, m);
    var c, n := X4(b), Half(Half(Half(Half(m))));
    SumFour(a, c, n);
    Assoc(Four(a, b, m), Four(a, c, n), Sum(a, X4(c), down));
  }

  lemma Rooms()
    ensures Room(0x8000_0000, 0x80_0000) && Room(0x80_0000, 0x8000) && Room(0x8000, 0x80) && Room(0x80, 0)
  {
  }

  lemma WrittenIs(a: bv32, b: bv32)
    ensures Written(a, b) == Times(a, b)
  {
    WrittenParts(a, b);
    hide *;
    Rooms();
    TimesIs(a, b);
    var c, d, e := X8(b), X8(X8(b)), X8(X8(X8(b)));
    SumEight(a, b, 0x8000_0000, 0x80_0000);
    SumEight(a, c, 0x80_0000, 0x8000);
    SumEight(a, d, 0x8000, 0x80);
    SumEight(a, e, 0x80, 0);
    SumIs(a, X8(e), 0);
    Zero(Eight(a, e, 0x80));
    Assoc(Eight(a, b, 0x8000_0000), Eight(a, c, 0x80_0000), Xor(Eight(a, d, 0x8000), Eight(a, e, 0x80)));
  }

  lemma WrittenParts(a: bv32, b: bv32)
    ensures Written(a, b) == Xor(Xor(Eight(a, b, 0x8000_0000), Eight(a, X8(b), 0x80_0000)),
                                 Xor(Eight(a, X8(X8(b)), 0x8000), Eight(a, X8(X8(X8(b))), 0x80)))
  {
    hide Eight, X8, Xor;
  }

  // ----- the table ---------------------------------------------------------------------------------------------

  /** Each entry is the square of the one before it, and the first of the last. */
  lemma Squares(k: nat)
    requires k < 32
    ensures |X2N| == 32 && Times(X2N[k], X2N[k]) == X2N[(k + 1) % 32]
  {
    WrittenIs(X2N[k], X2N[k]);
    hide Written, Times;
    if k < 8 { SquaresA(k); } else if k < 16 { SquaresB(k); } else if k < 24 { SquaresC(k); } else { SquaresD(k); }
  }

  lemma EntriesA()
    ensures |X2N| == 32
    ensures X2N[0] == 0x4000_0000 && X2N[1] == 0x2000_0000 && X2N[2] == 0x0800_0000
    ensures X2N[3] == 0x0080_0000 && X2N[4] == 0x0000_8000 && X2N[5] == 0xedb8_8320
    ensures X2N[6] == 0xb1e6_b092 && X2N[7] == 0xa06a_2517 && X2N[8] == 0xed62_7dae
  {
  }

  lemma SquaresA(k: nat)
    requires 0 <= k < 8
    ensures Written(X2N[k], X2N[k]) == X2N[(k + 1) % 32]
  {
    hide *;
    EntriesA();
    match k
    case 0 => Square0();
    case 1 => Square1();
    case 2 => Square2();
    case 3 => Square3();
    case 4 => Square4();
    case 5 => Square5();
    case 6 => Square6();
    case _ => Square7();
  }

  lemma EntriesB()
    ensures |X2N| == 32
    ensures X2N[8] == 0xed62_7dae && X2N[9] == 0x88d1_4467 && X2N[10] == 0xd7bb_fe6a
    ensures X2N[11] == 0xec44_7f11 && X2N[12] == 0x8e7e_a170 && X2N[13] == 0x6427_800e
    ensures X2N[14] == 0x4d47_bae0 && X2N[15] == 0x09fe_548f && X2N[16] == 0x8385_2d0f
  {
  }

  lemma SquaresB(k: nat)
    requires 8 <= k < 16
    ensures Written(X2N[k], X2N[k]) == X2N[(k + 1) % 32]
  {
    hide *;
    EntriesB();
    match k
    case 8 => Square8();
    case 9 => Square9();
    case 10 => Square10();
    case 11 => Square11();
    case 12 => Square12();
    case 13 => Square13();
    case 14 => Square14();
    case _ => Square15();
  }

  lemma EntriesC()
    ensures |X2N| == 32
    ensures X2N[16] == 0x8385_2d0f && X2N[17] == 0x3036_2f1a && X2N[18] == 0x7b5a_9cc3
    ensures X2N[19] == 0x31fe_c169 && X2N[20] == 0x9fec_022a && X2N[21] == 0x6c8d_edc4
    ensures X2N[22] == 0x15d6_874d && X2N[23] == 0x5fde_7a4e && X2N[24] == 0xbad9_0e37
  {
  }

  lemma SquaresC(k: nat)
    requires 16 <= k < 24
    ensures Written(X2N[k], X2N[k]) == X2N[(k + 1) % 32]
  {
    hide *;
    EntriesC();
    match k
    case 16 => Square16();
    case 17 => Square17();
    case 18 => Square18();
    case 19 => Square19();
    case 20 => Square20();
    case 21 => Square21();
    case 22 => Square22();
    case _ => Square23();
  }

  lemma EntriesD()
    ensures |X2N| == 32
    ensures X2N[24] == 0xbad9_0e37 && X2N[25] == 0x2e4e_5eef && X2N[26] == 0x4eab_a214
    ensures X2N[27] == 0xa8a4_72c0 && X2N[28] == 0x429a_969e && X2N[29] == 0x148d_302a
    ensures X2N[30] == 0xc40b_a6d0 && X2N[31] == 0xc4e2_2c3c && X2N[0] == 0x4000_0000
  {
  }

  lemma SquaresD(k: nat)
    requires 24 <= k < 32
    ensures Written(X2N[k], X2N[k]) == X2N[(k + 1) % 32]
  {
    hide *;
    EntriesD();
    match k
    case 24 => Square24();
    case 25 => Square25();
    case 26 => Square26();
    case 27 => Square27();
    case 28 => Square28();
    case 29 => Square29();
    case 30 => Square30();
    case _ => Square31();
  }

  /** Entry k is x to the 2^k. */
  lemma {:induction false} EntryPower(k: nat)
    requires k < 32
    ensures |X2N| == 32 && Iter(Pow2(k), ONE) == X2N[k]
    decreases k
  {
    hide *;
    if k == 0 {
      FirstPower();
      FirstEntry();
    } else {
      EntryPower(k - 1);
      Squares(k - 1);
      SquareDoubles(k - 1);
      FirstEntry();
    }
  }

  lemma FirstPower()
    ensures Pow2(0) == 1 && Iter(1, ONE) == 0x4000_0000 && Iter(0, ONE) == ONE
  {
  }

  lemma SquareDoubles(k: nat)
    ensures Times(Iter(Pow2(k), ONE), Iter(Pow2(k), ONE)) == Iter(Pow2(k + 1), ONE)
  {
    hide *;
    PowerTimes(Pow2(k), Iter(Pow2(k), ONE));
    IterSum(Pow2(k), Pow2(k), ONE);
    Doubles(k);
  }

  lemma Doubles(k: nat)
    ensures Pow2(k + 1) == Pow2(k) + Pow2(k)
  {
  }

  /** x to the 2^32 is x. */
  lemma ComesAround()
    ensures Iter(Pow2(32), ONE) == Iter(1, ONE)
  {
    hide *;
    FirstPower();
    EntryPower(31);
    Squares(31);
    SquareDoubles(31);
    FirstEntry();
  }

  lemma FirstEntry()
    ensures |X2N| == 32 && X2N[0] == 0x4000_0000
  {
  }

  /** 2^(k + 32) times x is 2^k times x. */
  lemma {:induction false} PowerWraps(k: nat, b: bv32)
    ensures Iter(Pow2(k + 32), b) == Iter(Pow2(k), b)
    decreases k
  {
    hide *;
    if k == 0 {
      ComesAround();
      FirstPower();
      PowerTimes(Pow2(32), b);
      PowerTimes(1, b);
    } else {
      Doubles(k - 1);
      Doubles(k + 31);
      IterSum(Pow2(k + 31), Pow2(k + 31), b);
      IterSum(Pow2(k - 1), Pow2(k - 1), b);
      PowerWraps(k - 1, b);
      PowerWraps(k - 1, Iter(Pow2(k - 1), b));
    }
  }

  /** The table entered at k modulo 32 multiplies by x to the 2^k. */
  lemma {:induction false} EntryTimes(k: nat, b: bv32)
    ensures |X2N| == 32 && Times(X2N[k % 32], b) == Iter(Pow2(k), b)
    decreases k
  {
    hide *;
    FirstEntry();
    if k < 32 {
      EntryPower(k);
      PowerTimes(Pow2(k), b);
    } else {
      EntryTimes(k - 32, b);
      PowerWraps(k - 32, b);
    }
  }
}
