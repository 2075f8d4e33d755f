/** F_q is a field and K = F_q[u]/(u^2 - 7) is one too: q is prime and 7 is no square. */
module Goldilocks {
  import opened Field

  // ----- powers -----

  function FPow(a: Fq, n: nat): Fq {
    if n == 0 then 1 else Mul(a, FPow(a, n - 1))
  }

  lemma {:induction false} FPowAdd(a: Fq, m: nat, n: nat)
    ensures FPow(a, m + n) == Mul(FPow(a, m), FPow(a, n))
  {
    hide Mul;
    if m == 0 {
      MulOne(FPow(a, n));
    } else {
      FPowAdd(a, m - 1, n);
      MulAssoc(a, FPow(a, m - 1), FPow(a, n));
    }
  }

  lemma {:induction false} FPowMul(a: Fq, m: nat, n: nat)
    ensures m * n >= 0 && FPow(FPow(a, m), n) == FPow(a, m * n)
  {
    hide Mul;
    if n != 0 {
      FPowMul(a, m, n - 1);
      assert m * n == m + m * (n - 1);
      FPowAdd(a, m, m * (n - 1));
    }
  }

  lemma Double(n: nat, x: Fq, k: nat, r: Fq)
    requires FPow(7, n) == x && x * x == k * Q + r
    ensures FPow(7, 2 * n) == r
  {
    FPowAdd(7, n, n);
    MulIsProduct(x, x);
    RedUnique(x * x, k, r);
    hide Mul, Red, FPow;
  }

  lemma DoubleOdd(n: nat, x: Fq, k: nat, y: Fq, j: nat, r: Fq)
    requires FPow(7, n) == x && x * x == k * Q + y && 7 * y == j * Q + r
    ensures FPow(7, 2 * n + 1) == r
  {
    Double(n, x, k, y);
    MulIsProduct(7, y);
    RedUnique(7 * y, j, r);
    hide Mul, Red;
  }

  const C: nat := 0xFFFF_FFFF

  lemma PowerStart()
    ensures FPow(7, 1) == 7
  {
    MulOne(7);
    assert FPow(7, 1) == Mul(7, FPow(7, 0));
  }

  lemma PowerCertificateLow()
    ensures FPow(7, 0x1_FFFF) == 0x3C0B_DA2F_FB16_3853
  {
    hide Mul, FPow;
    PowerStart();
    DoubleOdd(0x1, 0x7, 0x0, 0x31, 0, 0x157);
    DoubleOdd(0x3, 0x157, 0x0, 0x1_CB91, 0, 0xC_90F7);
    DoubleOdd(0x7, 0xC_90F7, 0x0, 0x9D_E93E_CE51, 0, 0x451_60B7_A437);
    DoubleOdd(0xF, 0x451_60B7_A437, 0x12_A4E4, 0x15F4_8697_6FE5_DEED, 0, 0x99AF_AE24_0F49_187B);
    DoubleOdd(0x1F, 0x99AF_AE24_0F49_187B, 0x5C43_76B7_024A_C5C4, 0xCEF1_0B62_6032_8555, 5, 0xA897_4FB5_A161_A54E);
    DoubleOdd(0x3F, 0xA897_4FB5_A161_A54E, 0x6F06_F20D_F3ED_16AC, 0xC4C0_0014_D7EC_8D18, 5, 0x6140_0096_E777_DBA3);
    DoubleOdd(0x7F, 0x6140_0096_E777_DBA3, 0x24F1_9072_CBCE_79C6, 0x101B_D2D5_4C2B_D003, 0, 0x70C2_C3D5_1532_B015);
    DoubleOdd(0xFF, 0x70C2_C3D5_1532_B015, 0x31AA_FF88_08F9_CA14, 0x977D_266A_AA57_17A5, 4, 0x246C_0CEE_A861_A57F);
    DoubleOdd(0x1FF, 0x246C_0CEE_A861_A57F, 0x52E_913E_0E8F_5874, 0x105C_B5CF_76AB_9C8D, 0, 0x7288_F8AC_3EB1_47DB);
    DoubleOdd(0x3FF, 0x7288_F8AC_3EB1_47DB, 0x333E_46C2_C3A4_F479, 0xBDE1_E590_C15C_40E0, 5, 0x312D_46FA_4985_C61B);
    DoubleOdd(0x7FF, 0x312D_46FA_4985_C61B, 0x972_5D2D_E143_40F4, 0xAA0A_2564_F618_85E5, 4, 0xA647_05C6_BAAB_A93F);
    DoubleOdd(0xFFF, 0xA647_05C6_BAAB_A93F, 0x6C00_2F32_5A73_B777, 0x81A9_B0C3_BB9A_860A, 3, 0x8BA3_D55D_2139_AA43);
    DoubleOdd(0x1FFF, 0x8BA3_D55D_2139_AA43, 0x4C2B_528C_D4AC_5C0B, 0x395C_270E_B466_B17E, 1, 0x9185_1167_EECE_DA71);
    DoubleOdd(0x3FFF, 0x9185_1167_EECE_DA71, 0x52B8_02E3_266B_712F, 0x5159_7C88_3DD5_34B2, 2, 0x3972_67BB_B0D4_70DC);
    DoubleOdd(0x7FFF, 0x3972_67BB_B0D4_70DC, 0xCE4_2552_2ED4_CEAF, 0x6133_5E3E_6F4C_6E61, 2, 0xA867_93B7_0B17_04A5);
    DoubleOdd(0xFFFF, 0xA867_93B7_0B17_04A5, 0x6EC8_1BC8_DFDC_F804, 0x893_FA99_23DE_9A55, 0, 0x3C0B_DA2F_FB16_3853);
  }

  lemma PowerCertificateOdd()
    ensures FPow(7, C) == 0x1856_29DC_DA58_878C
  {
    hide Mul, FPow;
    PowerCertificateLow();
    DoubleOdd(0x1_FFFF, 0x3C0B_DA2F_FB16_3853, 0xE15_8ED3_05DD_4DC2, 0xB744_5DC9_76CB_1D27, 5, 0x2DE_9087_3F8D_CC0C);
    DoubleOdd(0x3_FFFF, 0x2DE_9087_3F8D_CC0C, 0x8_3BC1_1931_1BD2, 0xCADA_ADB1_36AA_04BE, 5, 0x8BFA_BFDD_7EA6_212D);
    DoubleOdd(0x7_FFFF, 0x8BFA_BFDD_7EA6_212D, 0x4C8A_41F6_207A_4915, 0x4CD2_6948_362E_58D4, 2, 0x19C0_E0FB_7B44_6DCA);
    DoubleOdd(0xF_FFFF, 0x19C0_E0FB_7B44_6DCA, 0x297_3D43_5F9C_901C, 0x33B0_F0BF_3EC9_1348, 1, 0x69D6_953B_B77F_86F7);
    DoubleOdd(0x1F_FFFF, 0x69D6_953B_B77F_86F7, 0x2BC1_BA48_FF1D_B1BD, 0xA1BB_45CA_531B_D094, 4, 0x6C1E_E88C_45C2_B408);
    DoubleOdd(0x3F_FFFF, 0x6C1E_E88C_45C2_B408, 0x2DAA_17F1_DCA5_44C7, 0xE721_1EB6_CE15_FB79, 6, 0x51E7_D705_A299_E049);
    DoubleOdd(0x7F_FFFF, 0x51E7_D705_A299_E049, 0x1A34_8807_6BDF_D0E6, 0x7F6D_C612_D3E2_03EB, 3, 0x7C00_6A86_CB2E_1B6A);
    DoubleOdd(0xFF_FFFF, 0x7C00_6A86_CB2E_1B6A, 0x3C10_6732_FD38_F8FC, 0xF563_3488_FBCE_8EE8, 6, 0xB5B6_6FC4_E2A5_E852);
    DoubleOdd(0x1FF_FFFF, 0xB5B6_6FC4_E2A5_E852, 0x80FB_7C10_0638_AE71, 0x8401_65A7_0E50_0BD3, 3, 0x9C09_C794_6430_52C2);
    DoubleOdd(0x3FF_FFFF, 0x9C09_C794_6430_52C2, 0x5F1B_EB9C_DD3D_E5A5, 0xDF85_101E_D642_F55F, 6, 0x1CA3_70DD_DBD4_B593);
    DoubleOdd(0x7FF_FFFF, 0x1CA3_70DD_DBD4_B593, 0x334_2909_7793_8240, 0x3E79_186B_46AD_B029, 1, 0xB54F_AAEF_EEBF_D11E);
    DoubleOdd(0xFFF_FFFF, 0xB54F_AAEF_EEBF_D11E, 0x8069_C082_BA3D_E290, 0x20E5_A89E_C358_1CF4, 0, 0xE647_9C57_5768_CAAC);
    DoubleOdd(0x1FFF_FFFF, 0xE647_9C57_5768_CAAC, 0xCF24_C0F5_D822_1996, 0xC279_1E2E_5C11_C9FA, 5, 0x514F_D349_847C_85D1);
    DoubleOdd(0x3FFF_FFFF, 0x514F_D349_847C_85D1, 0x19D3_9C98_B56C_73A3, 0x8CC2_54CD_BAFE_60FE, 3, 0xD950_51A3_1CF4_A6EF);
    DoubleOdd(0x7FFF_FFFF, 0xD950_51A3_1CF4_A6EF, 0xB879_439A_5F8A_BFC3, 0xDEE7_BCD5_8CE8_135E, 6, 0x1856_29DC_DA58_878C);
  }

  /** 7^((q-1)/2) == -1. */
  lemma PowerCertificate()
    ensures FPow(7, 0x8000_0000 * C) == Q - 1
  {
    PowerCertificateOdd();
    hide Mul, FPow;
    Double(0xFFFF_FFFF, 0x1856_29DC_DA58_878C, 0x250_44D9_927C_0E37, 0x400A_7F75_5588_E659);
    Double(0x1_FFFF_FFFE, 0x400A_7F75_5588_E659, 0x1005_4028_EF6A_02AC, 0x7E9B_D009_B86A_0845);
    Double(0x3_FFFF_FFFC, 0x7E9B_D009_B86A_0845, 0x3E9D_BF9F_64FB_3C33, 0xDFA8_C93B_A46D_2666);
    Double(0x7_FFFF_FFF8, 0xDFA8_C93B_A46D_2666, 0xC367_7DDF_6854_2C1F, 0x5904_9500_004A_4485);
    Double(0xF_FFFF_FFF0, 0x5904_9500_004A_4485, 0x1EF4_2FAF_1DE0_D5FC, 0x10D7_8DD8_915A_171D);
    Double(0x1F_FFFF_FFE0, 0x10D7_8DD8_915A_171D, 0x11B_A73A_A3A3_56C3, 0xED41_D05B_78D6_E286);
    Double(0x3F_FFFF_FFC0, 0xED41_D05B_78D6_E286, 0xDBE2_ECB5_B1A8_EE4C, 0x4BBA_F597_6ECF_EFD8);
    Double(0x7F_FFFF_FF80, 0x4BBA_F597_6ECF_EFD8, 0x1667_1470_9CFD_24CF, 0x86CD_CC31_C307_E171);
    Double(0xFF_FFFF_FF00, 0x86CD_CC31_C307_E171, 0x46FC_1735_09BA_0A56, 0xEA9D_5A13_36FB_C98B);
    Double(0x1FF_FFFF_FE00, 0xEA9D_5A13_36FB_C98B, 0xD704_0963_92CB_4AC4, 0x4B2A_18AD_E672_46B5);
    Double(0x3FF_FFFF_FC00, 0x4B2A_18AD_E672_46B5, 0x1611_B162_1689_55A5, 0xF502_AEF5_3232_2654);
    Double(0x7FF_FFFF_F800, 0xF502_AEF5_3232_2654, 0xEA7E_22E9_6FF9_2423, 0x30BA_2ECD_5E93_E76D);
    Double(0xFFF_FFFF_F000, 0x30BA_2ECD_5E93_E76D, 0x946_58F5_17B9_B167, 0xFBD4_1C6B_8CAA_3302);
    Double(0x1FFF_FFFF_E000, 0xFBD4_1C6B_8CAA_3302, 0xF7B9_9F7A_F2D8_0D58, 0x8128_1A7B_05F9_BEAC);
    Double(0x3FFF_FFFF_C000, 0x8128_1A7B_05F9_BEAC, 0x4129_70F8_865E_3982, 0xABD0_A6E8_AA3D_8A0E);
    Double(0x7FFF_FFFF_8000, 0xABD0_A6E8_AA3D_8A0E, 0x7350_690A_EDA5_D3B6, 0x54DF_9630_BF79_450E);
    Double(0xFFFF_FFFF_0000, 0x54DF_9630_BF79_450E, 0x1C23_7DD7_1AD5_D218, 0xF6B2_CFFE_2306_BAAC);
    Double(0x1_FFFF_FFFE_0000, 0xF6B2_CFFE_2306_BAAC, 0xEDBC_24A3_3F72_C1AE, 0xE0EE_0993_10BB_A1E2);
    Double(0x3_FFFF_FFFC_0000, 0xE0EE_0993_10BB_A1E2, 0xC5A1_6E17_F0B8_91ED, 0x1544_EF23_35D1_7997);
    Double(0x7_FFFF_FFF8_0000, 0x1544_EF23_35D1_7997, 0x1C4_61CB_B2B0_1A5B, 0xF2C3_5199_959D_FCB6);
    Double(0xF_FFFF_FFF0_0000, 0xF2C3_5199_959D_FCB6, 0xE635_DB4C_AF11_0895, 0x653_B480_1DA1_C8CF);
    Double(0x1F_FFFF_FFE0_0000, 0x653_B480_1DA1_C8CF, 0x28_07D4_8BE3_3DEF, 0x9D8F_2AD7_8BFE_D972);
    Double(0x3F_FFFF_FFC0_0000, 0x9D8F_2AD7_8BFE_D972, 0x60F8_EA9D_A6A9_5776, 0x1905_D02A_5C41_1F4E);
    Double(0x7F_FFFF_FF80_0000, 0x1905_D02A_5C41_1F4E, 0x272_22CA_1363_525E, 0xBF79_143C_E60C_A966);
    Double(0xFF_FFFF_FF00_0000, 0xBF79_143C_E60C_A966, 0x8F35_E577_91A7_D4A3, 0xF800_07FF_0800_0001);
    Double(0x1FF_FFFF_FE00_0000, 0xF800_07FF_0800_0001, 0xF040_0F7F_1000_0001, 0x80_0000_0000);
    Double(0x3FF_FFFF_FC00_0000, 0x80_0000_0000, 0x4000, 0x3FFF_FFFF_C000);
    Double(0x7FF_FFFF_F800_0000, 0x3FFF_FFFF_C000, 0xFFF_FFFF, 0xEFFF_FFFF_0000_0001);
    Double(0xFFF_FFFF_F000_0000, 0xEFFF_FFFF_0000_0001, 0xE0FF_FFFF_0100_0000, 0xFFFF_FFFE_FF00_0001);
    Double(0x1FFF_FFFF_E000_0000, 0xFFFF_FFFE_FF00_0001, 0xFFFF_FFFE_FE00_0001, 0x1_0000_0000_0000);
    Double(0x3FFF_FFFF_C000_0000, 0x1_0000_0000_0000, 0x1_0000_0000, 0xFFFF_FFFF_0000_0000);
  }

  // ----- q is prime -----

  function Prod(k: int, d: int): int { k * d }

  ghost predicate Divides(d: int, x: int) {
    exists k :: Prod(k, d) == x
  }

  ghost predicate IsPrime(p: int) {
    p >= 2 && forall d :: 2 <= d < p ==> !Divides(d, p)
  }

  lemma DividesBy(k: int, d: int, x: int)
    requires k * d == x
    ensures Divides(d, x)
  {
    assert Prod(k, d) == x;
  }

  lemma DividesCombination(d: int, x: int, y: int, m: int)
    requires Divides(d, x) && Divides(d, y)
    ensures Divides(d, x + y) && Divides(d, x - y) && Divides(d, m * x)
  {
    var j :| Prod(j, d) == x;
    var k :| Prod(k, d) == y;
    assert (j + k) * d == j * d + k * d && (j - k) * d == j * d - k * d && (m * j) * d == m * (j * d);
    DividesBy(j + k, d, x + y);
    DividesBy(j - k, d, x - y);
    DividesBy(m * j, d, m * x);
  }

  lemma DivisorBound(d: int, x: int)
    requires d >= 1 && x > 0 && Divides(d, x)
    ensures d <= x
  {
    var k :| Prod(k, d) == x;
    ProductSign(k, d);
  }

  lemma ProductSign(k: int, d: int)
    requires d >= 0
    ensures k <= 0 ==> k * d <= 0
    ensures k >= 1 ==> k * d >= d
  {
    if k >= 1 {
      assert (k - 1) * d >= 0;
    }
  }

  lemma MulCongruent(z: Fq, x: Fq, y: Fq, d: int)
    requires Divides(d, Q) && Divides(d, x - y)
    ensures Divides(d, Mul(z, x) - Mul(z, y))
  {
    MulIsProduct(z, x);
    MulIsProduct(z, y);
    var j := RedSplit(z * x);
    var k := RedSplit(z * y);
    hide Mul, Red, Divides;
    DividesCombination(d, x - y, Q, z);
    DividesCombination(d, Q, Q, k - j);
    DividesCombination(d, z * (x - y), (k - j) * Q, 0);
    assert z * (x - y) == z * x - z * y;
    assert (k - j) * Q == k * Q - j * Q;
  }

  /** Powers of 7^(2^32 - 1), an element of order 2^32. */
  function Root(i: nat): Fq { FPow(7, i * C) }

  lemma RootAdd(i: nat, j: nat)
    ensures Root(i + j) == Mul(Root(i), Root(j))
  {
    FPowAdd(7, i * C, j * C);
    assert (i + j) * C == i * C + j * C;
  }

  lemma RootOrder()
    ensures Root(0x8000_0000) == Q - 1 && Root(0x1_0000_0000) == 1
  {
    PowerCertificate();
    RootAdd(0x8000_0000, 0x8000_0000);
    RedUnique((Q - 1) * (Q - 1), Q - 2, 1);
    MulIsProduct(Q - 1, Q - 1);
  }

  function Pow2(e: nat): nat { if e == 0 then 1 else 2 * Pow2(e - 1) }

  lemma {:induction false} Pow2Split(e: nat)
    requires e <= 31
    ensures Pow2(e) * Pow2(31 - e) == 0x8000_0000
  {
    if e == 0 {
      Pow2Of31();
    } else {
      Pow2Split(e - 1);
      MoveFactor(Pow2(e - 1), Pow2(31 - e));
    }
  }

  lemma Pow2Of31()
    ensures Pow2(31) == 0x8000_0000
  {
    assert Pow2(6) == 64;
    assert Pow2(11) == 2048;
    assert Pow2(16) == 0x1_0000;
    assert Pow2(21) == 0x20_0000;
    assert Pow2(26) == 0x400_0000;
  }

  lemma MoveFactor(x: int, y: int)
    ensures x * (2 * y) == (2 * x) * y == 2 * (x * y)
  {}

  /** An exponent that brings the root back to 1 modulo d may be doubled and reduced modulo 2^32. */
  lemma OrderDoubles(d: int, t: nat)
    requires Divides(d, Q) && Divides(d, Root(t) - 1)
    ensures Divides(d, Root(2 * t) - 1)
    ensures 2 * t >= 0x1_0000_0000 ==> Divides(d, Root(2 * t - 0x1_0000_0000) - 1)
  {
    hide Mul, Root, Divides;
    RootAdd(t, t);
    MulCongruent(Root(t), Root(t), 1, d);
    MulOne(Root(t));
    DividesCombination(d, Mul(Root(t), Root(t)) - Root(t), Root(t) - 1, 0);
    if 2 * t >= 0x1_0000_0000 {
      var u := 2 * t - 0x1_0000_0000;
      RootAdd(u, 0x1_0000_0000);
      RootOrder();
      MulOne(Root(u));
    }
  }

  lemma HalfOrderIsMinusOne(d: int)
    requires d >= 2 && Divides(d, Q)
    ensures !Divides(d, Root(0x8000_0000) - 1)
  {
    RootOrder();
    hide Root;
    if Divides(d, Q - 2) {
      assert Divides(d, 2) by {
        hide Divides;
        DividesCombination(d, Q, Q - 2, 0);
      }
      DivisorBound(d, 2);
    }
  }

  lemma DoubledExponent(e: nat, m: nat)
    requires e <= 30 && 0 < m * Pow2(e) < 0x1_0000_0000
    ensures m * Pow2(e + 1) == 2 * (m * Pow2(e))
    ensures 2 * (m * Pow2(e)) >= 0x1_0000_0000 ==>
      var n := 2 * Pow2(30 - e); m >= n && (m - n) * Pow2(e + 1) == 2 * (m * Pow2(e)) - 0x1_0000_0000
  {
    var p, w := Pow2(e + 1), Pow2(30 - e);
    Pow2Split(e + 1);
    MoveFactor(m, Pow2(e));
    MoveFactor(p, w);
    hide Pow2;
    if m * p >= 0x1_0000_0000 {
      Wrap(m, 2 * w, p);
    }
  }

  lemma Wrap(m: nat, n: nat, p: nat)
    requires p * n == 0x1_0000_0000 && m * p >= 0x1_0000_0000
    ensures m >= n && (m - n) * p == m * p - 0x1_0000_0000
  {
    assert (m - n) * p == m * p - n * p;
    ProductSign(m - n + 1, p);
    assert (m - n + 1) * p == (m - n) * p + p;
  }

  /** No exponent 0 < m 2^e < 2^32 brings the root back to 1 modulo a divisor of q. */
  lemma {:induction false} NoSmallOrder(d: int, e: nat, m: nat)
    requires d >= 2 && Divides(d, Q) && e <= 31
    requires 0 < m * Pow2(e) < 0x1_0000_0000
    ensures !Divides(d, Root(m * Pow2(e)) - 1)
    decreases 31 - e
  {
    hide Mul, Root, Divides;
    var t := m * Pow2(e);
    HalfOrderIsMinusOne(d);
    if t != 0x8000_0000 && Divides(d, Root(t) - 1) {
      if e == 31 {
        Pow2Of31();
        assert false;
      } else {
        OrderDoubles(d, t);
        DoubledExponent(e, m);
        NoSmallOrder(d, e + 1, if 2 * t < 0x1_0000_0000 then m else m - 2 * Pow2(30 - e));
      }
    }
  }

  /** An injective map from n numbers into [0, d) needs n <= d. */
  lemma Pigeonhole(n: nat, d: nat, f: nat -> int)
    requires forall i :: 0 <= i < n ==> 0 <= f(i) < d
    requires forall i, j :: 0 <= i < j < n ==> f(i) != f(j)
    ensures n <= d
  {
    ImageSize(n, f);
    SubsetSize(set i | 0 <= i < n :: f(i), Below(d));
  }

  lemma {:induction false} ImageSize(n: nat, f: nat -> int)
    requires forall i, j :: 0 <= i < j < n ==> f(i) != f(j)
    ensures |set i | 0 <= i < n :: f(i)| == n
  {
    var image := set i | 0 <= i < n :: f(i);
    if n == 0 {
      assert image == {};
    } else {
      ImageSize(n - 1, f);
      var rest := set i | 0 <= i < n - 1 :: f(i);
      assert image == rest + {f(n - 1)};
      assert f(n - 1) !in rest;
    }
  }

  /** The numbers 0 .. d-1. */
  ghost function Below(d: nat): (s: set<int>)
    ensures forall x :: x in s <==> 0 <= x < d
    ensures |s| == d
  {
    if d == 0 then {} else Below(d - 1) + {d - 1}
  }

  lemma {:induction false} SubsetSize<T>(a: set<T>, b: set<T>)
    requires a <= b
    ensures |a| <= |b|
    ensures |a| == |b| ==> a == b
  {
    if a != {} {
      var x :| x in a;
      SubsetSize(a - {x}, b - {x});
    }
  }

  lemma ResiduesDiffer(d: int, i: nat, j: nat)
    requires d >= 2 && Divides(d, Q) && i < j < 0x1_0000_0000
    ensures Root(i) % d != Root(j) % d
  {
    hide Mul, Root;
    var x, y := Root(i), Root(j);
    if x % d == y % d {
      assert (y / d - x / d) * d == y - x by {
        assert x == x / d * d + x % d && y == y / d * d + y % d;
        assert (y / d - x / d) * d == y / d * d - x / d * d;
      }
      DividesBy(y / d - x / d, d, y - x);
      var back := Root(0x1_0000_0000 - i);
      MulCongruent(back, y, x, d);
      RootAdd(0x1_0000_0000 - i, i);
      RootAdd(0x1_0000_0000 - i, j);
      RootAdd(0x1_0000_0000, j - i);
      RootOrder();
      MulOne(Root(j - i));
      assert (j - i) * Pow2(0) == j - i;
      NoSmallOrder(d, 0, j - i);
    }
  }

  lemma DivisorsAreLarge(d: int)
    requires d >= 2 && Divides(d, Q)
    ensures d >= 0x1_0000_0000
  {
    var f := (i: nat) => Root(i) % d;
    forall i, j | 0 <= i < j < 0x1_0000_0000
      ensures f(i) != f(j)
    {
      ResiduesDiffer(d, i, j);
    }
    hide Root;
    Pigeonhole(0x1_0000_0000, d, f);
  }

  /** q is prime. */
  lemma QIsPrime()
    ensures IsPrime(Q)
  {
    forall d | 2 <= d < Q
      ensures !Divides(d, Q)
    {
      if Divides(d, Q) {
        var k :| Prod(k, d) == Q;
        DivisorsAreLarge(d);
        CofactorBound(k, d);
        DividesBy(d, k, Q);
        DivisorsAreLarge(k);
        LargeProduct(k, d);
      }
    }
  }

  lemma CofactorBound(k: int, d: int)
    requires 2 <= d < Q && k * d == Q
    ensures k >= 2 && d * k == Q
  {
    ProductSign(k, d);
    ProductSign(k - 1, d);
    assert (k - 1) * d == k * d - d;
  }

  lemma LargeProduct(a: int, b: int)
    requires a >= 0x1_0000_0000 && b >= 0x1_0000_0000
    ensures a * b > Q
  {
    assert (a - 0x1_0000_0000) * (b - 0x1_0000_0000) >= 0;
    assert (a - 0x1_0000_0000) * (b - 0x1_0000_0000)
        == a * b - 0x1_0000_0000 * a - 0x1_0000_0000 * b + 0x1_0000_0000_0000_0000;
  }

  // ----- no zero divisors -----

  /** Euclid's lemma for q, by descent on the left factor. */
  lemma {:induction false} NoZeroDivisors(a: int, b: int)
    requires 0 < a < Q && 0 < b < Q
    ensures !Divides(Q, a * b)
    decreases a
  {
    if Divides(Q, a * b) {
      if a == 1 {
        DivisorBound(Q, b);
        assert false;
      } else {
        var k, r := Q / a, Q % a;
        assert k * a + r == Q;
        if r == 0 {
          DividesBy(k, a, Q);
          QIsPrime();
          assert false;
        } else {
          DescentStep(a, b, k, r);
          NoZeroDivisors(r, b);
        }
      }
    }
  }

  lemma DescentStep(a: int, b: int, k: int, r: int)
    requires k * a + r == Q && Divides(Q, a * b)
    ensures Divides(Q, r * b)
  {
    DividesBy(b, Q, b * Q);
    DividesCombination(Q, a * b, b * Q, k);
    DividesCombination(Q, b * Q, k * (a * b), 0);
    calc {
      b * Q - k * (a * b);
      b * (k * a + r) - k * (a * b);
      { assert b * (k * a + r) == b * (k * a) + b * r; assert b * (k * a) == k * (a * b); }
      b * r;
      r * b;
    }
  }

  lemma ProductNonzero(a: Fq, b: Fq)
    requires a != 0 && b != 0
    ensures Mul(a, b) != 0
  {
    NoZeroDivisors(a, b);
    MulIsProduct(a, b);
    var k := RedSplit(a * b);
    if Mul(a, b) == 0 {
      DividesBy(k, Q, a * b);
    }
    hide Mul;
  }

  lemma Cancel(a: Fq, x: Fq, y: Fq)
    requires a != 0 && Mul(a, x) == Mul(a, y)
    ensures x == y
  {
    hide Mul;
    MulSub(a, x, y);
    if x != y {
      ProductNonzero(a, Sub(x, y));
    }
  }

  // ----- Fermat: multiplication by a nonzero a permutes the nonzero elements -----

  ghost function Image(a: Fq, s: set<Fq>): set<Fq> {
    set x | x in s :: Mul(a, x)
  }

  ghost function ProdSet(s: set<Fq>): Fq {
    if s == {} then 1 else var x :| x in s; Mul(x, ProdSet(s - {x}))
  }

  lemma {:induction false} ProdRemove(s: set<Fq>, x: Fq)
    requires x in s
    ensures ProdSet(s) == Mul(x, ProdSet(s - {x}))
    decreases |s|
  {
    hide Mul;
    var y :| y in s && ProdSet(s) == Mul(y, ProdSet(s - {y}));
    if x != y {
      ProdRemove(s - {y}, x);
      ProdRemove(s - {x}, y);
      assert s - {y} - {x} == s - {x} - {y};
      var p := ProdSet(s - {x} - {y});
      MulAssoc(y, x, p);
      MulAssoc(x, y, p);
      MulComm(x, y);
    }
  }

  lemma ImageSplit(a: Fq, s: set<Fq>, x: Fq)
    requires a != 0 && x in s
    ensures Mul(a, x) !in Image(a, s - {x})
    ensures Image(a, s) == Image(a, s - {x}) + {Mul(a, x)}
  {
    hide Mul;
    forall z | z in s - {x}
      ensures Mul(a, z) != Mul(a, x)
    {
      if Mul(a, z) == Mul(a, x) {
        Cancel(a, x, z);
      }
    }
  }

  lemma {:induction false} ProdImage(a: Fq, s: set<Fq>)
    requires a != 0
    ensures |Image(a, s)| == |s|
    ensures ProdSet(Image(a, s)) == Mul(FPow(a, |s|), ProdSet(s))
    decreases |s|
  {
    hide Mul, ProdSet;
    if s == {} {
      assert ProdSet({}) == 1 by { EmptyProduct(); }
      MulOne(1);
    } else {
      var x :| x in s;
      var rest, y := s - {x}, Mul(a, x);
      ImageSplit(a, s, x);
      hide Image;
      ProdImage(a, rest);
      assert Image(a, s) - {y} == Image(a, rest);
      ProdRemove(Image(a, s), y);
      ProdRemove(s, x);
      MulSwap(a, x, FPow(a, |rest|), ProdSet(rest));
    }
  }

  lemma EmptyProduct()
    ensures ProdSet({}) == 1
  {}

  lemma {:induction false} ProdSetNonzero(s: set<Fq>)
    requires 0 !in s
    ensures ProdSet(s) != 0
    decreases |s|
  {
    if s != {} {
      var x :| x in s && ProdSet(s) == Mul(x, ProdSet(s - {x}));
      ProdSetNonzero(s - {x});
      ProductNonzero(x, ProdSet(s - {x}));
    }
    hide Mul;
  }

  /** The nonzero elements up to n. */
  ghost function Units(n: nat): (s: set<Fq>)
    requires n < Q
    ensures forall x: Fq :: x in s <==> 0 < x <= n
    ensures |s| == n
  {
    if n == 0 then {} else Units(n - 1) + {n}
  }

  /** Fermat's little theorem. */
  lemma Fermat(a: Fq)
    requires a != 0
    ensures FPow(a, Q - 1) == 1
  {
    hide Mul, FPow;
    var s := Units(Q - 1);
    ProdImage(a, s);
    forall y | y in Image(a, s)
      ensures y in s
    {
      var x :| x in s && Mul(a, x) == y;
      ProductNonzero(a, x);
    }
    SubsetSize(Image(a, s), s);
    ProdSetNonzero(s);
    var f, p := FPow(a, Q - 1), ProdSet(s);
    MulComm(f, p);
    MulOne(p);
    Cancel(p, f, 1);
  }

  /** Multiplicative inverse, a^(q-2). */
  function Inv(a: Fq): Fq { FPow(a, Q - 2) }

  lemma InvIsInverse(a: Fq)
    requires a != 0
    ensures Mul(a, Inv(a)) == 1 == Mul(Inv(a), a)
    ensures Inv(a) != 0
  {
    Fermat(a);
    assert FPow(a, Q - 1) == Mul(a, FPow(a, Q - 2));
    MulComm(a, Inv(a));
    MulOne(a);
    hide Mul, FPow;
  }

  lemma SquaresHavePowerOne(x: Fq)
    requires x != 0
    ensures FPow(Mul(x, x), 0x8000_0000 * C) == 1
  {
    hide Mul, FPow;
    Fermat(x);
    SquareIsPower(x);
    FPowMul(x, 2, 0x8000_0000 * C);
    assert 2 * (0x8000_0000 * C) == Q - 1;
  }

  /** 7 is no square, so u^2 - 7 is irreducible. */
  lemma SevenIsNoSquare(x: Fq)
    ensures Mul(x, x) != 7
  {
    MulOne(x);
    if x != 0 {
      SquaresHavePowerOne(x);
    }
    PowerCertificate();
    hide Mul, FPow;
  }

  lemma SquareIsPower(x: Fq)
    ensures FPow(x, 2) == Mul(x, x)
  {
    assert FPow(x, 2) == Mul(x, FPow(x, 1));
    assert FPow(x, 1) == Mul(x, FPow(x, 0));
    MulOne(x);
    hide Mul;
  }
}
