/**
 The ranges of balanced digits against half of the field: no 32-bit base comes close to it.  Between
 two neighbouring thresholds the number of digits below half of the field is constant.
 */
module Ranges {
  import opened Arithmetic
  import opened Digits

  lemma {:induction false} RangeMonotone(a: nat, b: nat, j: nat, k: nat)
    requires 2 <= a <= b && j <= k
    ensures MaxRep(a, j) <= MaxRep(b, k)
  {
    if j != 0 {
      RangeMonotone(a, b, j - 1, k - 1);
      MulOrder(MaxRep(a, j - 1), MaxRep(b, k - 1), a);
      MulOrder(a, b, MaxRep(b, k - 1));
    }
  }

  ghost predicate StaysAway(b: nat, k: nat)
    requires b >= 2
  {
    MaxRep(b, k) + 0x4000_0000 <= HALF_Q || HALF_Q <= MaxRep(b, k)
  }

  /** Between the bases lo and hi, half of the field is covered exactly from digits + 1 on. */
  lemma Segment(b: nat, lo: nat, hi: nat, digits: nat, k: nat)
    requires 2 <= lo <= b <= hi
    requires MaxRep(hi, digits) + 0x4000_0000 <= HALF_Q <= MaxRep(lo, digits + 1)
    ensures StaysAway(b, k)
  {
    if k <= digits {
      RangeMonotone(b, hi, k, digits);
    } else {
      RangeMonotone(lo, b, digits + 1, k);
    }
    hide MaxRep;
  }

  lemma Thresholds2()
    ensures MaxRep(2, 62) == 4611686018427387903
    ensures MaxRep(2, 63) == 9223372036854775807
  {
    assert MaxRep(2, 6) == 63;
    assert MaxRep(2, 12) == 4095;
    assert MaxRep(2, 18) == 262143;
    assert MaxRep(2, 24) == 16777215;
    assert MaxRep(2, 30) == 1073741823;
    assert MaxRep(2, 36) == 68719476735;
    assert MaxRep(2, 42) == 4398046511103;
    assert MaxRep(2, 48) == 281474976710655;
    assert MaxRep(2, 54) == 18014398509481983;
    assert MaxRep(2, 60) == 1152921504606846975;
  }

  lemma Thresholds3()
    ensures MaxRep(3, 40) == 6078832729528464400
    ensures MaxRep(3, 41) == 18236498188585393201
  {
    assert MaxRep(3, 6) == 364;
    assert MaxRep(3, 12) == 265720;
    assert MaxRep(3, 18) == 193710244;
    assert MaxRep(3, 24) == 141214768240;
    assert MaxRep(3, 30) == 102945566047324;
    assert MaxRep(3, 36) == 75047317648499560;
  }

  lemma Thresholds4()
    ensures MaxRep(4, 31) == 3074457345618258602
    ensures MaxRep(4, 32) == 12297829382473034410
  {
    assert MaxRep(4, 6) == 2730;
    assert MaxRep(4, 12) == 11184810;
    assert MaxRep(4, 18) == 45812984490;
    assert MaxRep(4, 24) == 187649984473770;
    assert MaxRep(4, 30) == 768614336404564650;
  }

  lemma Thresholds5()
    ensures MaxRep(5, 27) == 3725290298461914062
    ensures MaxRep(5, 28) == 18626451492309570312
  {
    assert MaxRep(5, 6) == 7812;
    assert MaxRep(5, 12) == 122070312;
    assert MaxRep(5, 18) == 1907348632812;
    assert MaxRep(5, 24) == 29802322387695312;
  }

  lemma Thresholds6()
    ensures MaxRep(6, 24) == 2843028802992970137
    ensures MaxRep(6, 25) == 17058172817957820825
  {
    assert MaxRep(6, 6) == 27993;
    assert MaxRep(6, 12) == 1306069401;
    assert MaxRep(6, 18) == 60935974001049;
    assert MaxRep(6, 24) == 2843028802992970137;
  }

  lemma Thresholds7()
    ensures MaxRep(7, 22) == 1954910524291494024
    ensures MaxRep(7, 23) == 13684373670040458171
  {
    assert MaxRep(7, 6) == 58824;
    assert MaxRep(7, 12) == 6920643600;
    assert MaxRep(7, 18) == 814206798955224;
  }

  lemma Thresholds8()
    ensures MaxRep(8, 21) == 5270498306774157604
    ensures MaxRep(8, 22) == 42163986454193260836
  {
    assert MaxRep(8, 6) == 149796;
    assert MaxRep(8, 12) == 39268272420;
    assert MaxRep(8, 18) == 10293942005418276;
  }

  lemma Thresholds9()
    ensures MaxRep(9, 20) == 6078832729528464400
    ensures MaxRep(9, 21) == 54709494565756179604
  {
    assert MaxRep(9, 6) == 265720;
    assert MaxRep(9, 12) == 141214768240;
    assert MaxRep(9, 18) == 75047317648499560;
  }

  lemma Thresholds10()
    ensures MaxRep(10, 19) == 5555555555555555555
    ensures MaxRep(10, 20) == 55555555555555555555
  {
    assert MaxRep(10, 6) == 555555;
    assert MaxRep(10, 12) == 555555555555;
    assert MaxRep(10, 18) == 555555555555555555;
  }

  lemma Thresholds11()
    ensures MaxRep(11, 18) == 2779958656746115740
    ensures MaxRep(11, 19) == 30579545224207273145
  {
    assert MaxRep(11, 6) == 885780;
    assert MaxRep(11, 12) == 1569214188360;
    assert MaxRep(11, 18) == 2779958656746115740;
  }

  lemma Thresholds12()
    ensures MaxRep(13, 17) == 4325207959690668966
    ensures MaxRep(12, 18) == 14521818153210133038
  {
    assert MaxRep(12, 6) == 1628718;
    assert MaxRep(12, 12) == 4863327517230;
    assert MaxRep(13, 6) == 2413404;
    assert MaxRep(13, 12) == 11649042561240;
  }

  lemma Thresholds14()
    ensures MaxRep(15, 16) == 3284204177856445312
    ensures MaxRep(14, 17) == 16418417469639874717
  {
    assert MaxRep(14, 6) == 4054365;
    assert MaxRep(14, 12) == 30527491279005;
    assert MaxRep(15, 6) == 5695312;
    assert MaxRep(15, 12) == 64873168945312;
  }

  lemma Thresholds16()
    ensures MaxRep(19, 15) == 7590563514937399149
    ensures MaxRep(16, 16) == 9838263505978427528
  {
    assert MaxRep(16, 6) == 8947848;
    assert MaxRep(16, 12) == 150119987579016;
    assert MaxRep(19, 6) == 23522940;
    assert MaxRep(19, 12) == 1106657459533080;
  }

  lemma Thresholds20()
    ensures MaxRep(23, 14) == 5796418162269374904
    ensures MaxRep(20, 15) == 17246315789473684210
  {
    assert MaxRep(20, 6) == 33684210;
    assert MaxRep(20, 12) == 2155789473684210;
    assert MaxRep(23, 6) == 74017944;
    assert MaxRep(23, 12) == 10957312216010160;
  }

  lemma Thresholds24()
    ensures MaxRep(30, 13) == 8246498275862068965
    ensures MaxRep(24, 14) == 10975158325131437100
  {
    assert MaxRep(24, 6) == 99705900;
    assert MaxRep(24, 12) == 19054094314464300;
    assert MaxRep(30, 6) == 377068965;
    assert MaxRep(30, 12) == 274883275862068965;
  }

  lemma Thresholds31()
    ensures MaxRep(40, 12) == 8603700512820512820
    ensures MaxRep(31, 13) == 12208773148722521295
  {
    assert MaxRep(31, 6) == 443751840;
    assert MaxRep(31, 12) == 393831391894274880;
    assert MaxRep(40, 6) == 2100512820;
  }

  lemma Thresholds41()
    ensures MaxRep(56, 11) == 8646963761867400508
    ensures MaxRep(41, 12) == 11281745150183093040
  {
    assert MaxRep(41, 6) == 2375052120;
    assert MaxRep(56, 6) == 15700862268;
  }

  lemma Thresholds57()
    ensures MaxRep(84, 10) == 8850423624302648850
    ensures MaxRep(57, 11) == 10317949946521400596
  {
    assert MaxRep(57, 6) == 17148223624;
    assert MaxRep(84, 6) == 177765269010;
  }

  lemma Thresholds85()
    ensures MaxRep(138, 9) == 9141980723030927139
    ensures MaxRep(85, 10) == 9843720217036132812
  {
    assert MaxRep(85, 6) == 188574757812;
    assert MaxRep(138, 6) == 3478588380771;
  }

  lemma Thresholds139()
    ensures MaxRep(255, 8) == 8939051673906445312
    ensures MaxRep(139, 9) == 9685079871212015829
  {
    assert MaxRep(139, 6) == 3606274706580;
    assert MaxRep(255, 6) == 137470998445312;
  }

  lemma Thresholds256()
    ensures MaxRep(565, 7) == 9189865158000664062
    ensures MaxRep(256, 8) == 9259542123273814144
  {
    assert MaxRep(256, 6) == 141289400074368;
    assert MaxRep(565, 6) == 16265248067257812;
  }

  lemma Thresholds566()
    ensures MaxRep(1625, 6) == 9206407546997070312
    ensures MaxRep(566, 7) == 9320796067580108401
  {
    assert MaxRep(566, 6) == 16467837575229873;
  }

  lemma Thresholds1626()
    ensures MaxRep(7131, 5) == 9219814570333362325
    ensures MaxRep(1626, 6) == 9246139208561853003
  {
  }

  lemma Thresholds7132()
    ensures MaxRep(65535, 4) == 9222809099786125312
    ensures MaxRep(7132, 5) == 9227574812214289366
  {
  }

  lemma Thresholds65536()
    ensures MaxRep(2642245, 3) == 9223362092156428062
    ensures MaxRep(65536, 4) == 9223512776490647552
  {
  }

  lemma Thresholds2642246()
    ensures MaxRep(4294967295, 2) == 9223372032559808512
    ensures MaxRep(2642246, 3) == 9223376055081634849
  {
  }

  /** The range of k digits covers half of the field or stays 2^30 below it. */
  lemma RangesStayAway(b: nat, k: nat)
    requires 2 <= b < 0x1_0000_0000
    ensures StaysAway(b, k)
  {
    hide StaysAway, MaxRep;
    if b <= 2 {
      Thresholds2();
      Segment(b, 2, 2, 62, k);
    } else if b <= 3 {
      Thresholds3();
      Segment(b, 3, 3, 40, k);
    } else if b <= 4 {
      Thresholds4();
      Segment(b, 4, 4, 31, k);
    } else if b <= 5 {
      Thresholds5();
      Segment(b, 5, 5, 27, k);
    } else if b <= 6 {
      Thresholds6();
      Segment(b, 6, 6, 24, k);
    } else if b <= 7 {
      Thresholds7();
      Segment(b, 7, 7, 22, k);
    } else if b <= 8 {
      Thresholds8();
      Segment(b, 8, 8, 21, k);
    } else if b <= 9 {
      Thresholds9();
      Segment(b, 9, 9, 20, k);
    } else if b <= 10 {
      Thresholds10();
      Segment(b, 10, 10, 19, k);
    } else if b <= 11 {
      Thresholds11();
      Segment(b, 11, 11, 18, k);
    } else if b <= 13 {
      Thresholds12();
      Segment(b, 12, 13, 17, k);
    } else if b <= 15 {
      Thresholds14();
      Segment(b, 14, 15, 16, k);
    } else if b <= 19 {
      Thresholds16();
      Segment(b, 16, 19, 15, k);
    } else if b <= 23 {
      Thresholds20();
      Segment(b, 20, 23, 14, k);
    } else if b <= 30 {
      Thresholds24();
      Segment(b, 24, 30, 13, k);
    } else if b <= 40 {
      Thresholds31();
      Segment(b, 31, 40, 12, k);
    } else if b <= 56 {
      Thresholds41();
      Segment(b, 41, 56, 11, k);
    } else if b <= 84 {
      Thresholds57();
      Segment(b, 57, 84, 10, k);
    } else if b <= 138 {
      Thresholds85();
      Segment(b, 85, 138, 9, k);
    } else if b <= 255 {
      Thresholds139();
      Segment(b, 139, 255, 8, k);
    } else if b <= 565 {
      Thresholds256();
      Segment(b, 256, 565, 7, k);
    } else if b <= 1625 {
      Thresholds566();
      Segment(b, 566, 1625, 6, k);
    } else if b <= 7131 {
      Thresholds1626();
      Segment(b, 1626, 7131, 5, k);
    } else if b <= 65535 {
      Thresholds7132();
      Segment(b, 7132, 65535, 4, k);
    } else if b <= 2642245 {
      Thresholds65536();
      Segment(b, 65536, 2642245, 3, k);
    } else {
      Thresholds2642246();
      Segment(b, 2642246, 4294967295, 2, k);
    }
  }
}
