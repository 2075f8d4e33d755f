/**
 The norm guard of the sampling against the reach of combinations: for which alphabets, bases and
 builds the guard is enough for every combination to split.
 */
module GuardReach {
  import opened Arithmetic
  import opened Ring
  import opened Ajtai
  import opened Digits
  import opened Norms
  import opened Reach
  import opened Ranges

  // ----- the guard in terms of repunits -----

  /** 1 + b + ... + b^(k-1). */
  function Rep(b: nat, k: nat): nat { if k == 0 then 0 else 1 + b * Rep(b, k - 1) }

  lemma {:induction false} RepIs(b: nat, k: nat)
    requires b >= 2
    ensures MaxRep(b, k) == b / 2 * Rep(b, k)
    ensures Pow(b, k) == (b - 1) * Rep(b, k) + 1
  {
    if k != 0 {
      RepIs(b, k - 1);
      RepStep(b, b / 2, Rep(b, k - 1));
      RepStep(b, b - 1, Rep(b, k - 1));
      assert b * ((b - 1) * Rep(b, k - 1) + 1) == b * ((b - 1) * Rep(b, k - 1)) + b;
    }
  }

  lemma RepStep(b: int, c: int, r: int)
    ensures c + b * (c * r) == c * (1 + b * r)
  {
    assert b * (c * r) == c * (b * r);
  }

  /** The guard, without its factor b - 1. */
  lemma GuardIsRep(count: nat, t: nat, b: nat, k: nat)
    requires b >= 2
    ensures Guard(count, t, b, k) <==> count * t <= Rep(b, k)
  {
    RepIs(b, k);
    assert Guard(count, t, b, k) <==> count * t * (b - 1) < Pow(b, k);
    hide *;
    Scaled(count * t, Rep(b, k), b - 1);
  }

  lemma Scaled(x: nat, y: nat, c: nat)
    requires c > 0
    ensures x * c < c * y + 1 <==> x <= y
  {
    if x <= y {
      MulOrder(x, y, c);
    } else {
      MulOrder(y + 1, x, c);
    }
  }

  lemma {:induction false} RepMonotone(a: nat, b: nat, k: nat)
    requires a <= b
    ensures Rep(a, k) <= Rep(b, k)
  {
    if k != 0 {
      RepMonotone(a, b, k - 1);
      MulOrder(Rep(a, k - 1), Rep(b, k - 1), a);
      MulOrder(a, b, Rep(b, k - 1));
    }
  }

  // ----- signed bytes -----

  /** Alphabets are slices of signed bytes. */
  ghost predicate Bytes(a: Alphabet) { forall x :: x in a ==> -128 <= x <= 127 }

  lemma BytesAreSmall(a: Alphabet, project: bool)
    requires Bytes(a)
    ensures Size(a) <= 128 && Width(a) <= 255 && Grain(a, project) <= 383
  {}

  lemma UnitIsSmall(a: Alphabet, project: bool)
    ensures Unit(a, project) <= 159 * Size(a)
  {
    assert Lo(a) <= Hi(a);
  }

  /** For signed bytes and 32-bit bases the exact condition holds without reserve. */
  lemma CombinationsSplitExactly(a: Alphabet, project: bool, count: nat, beta: nat, b: nat, k: nat)
    requires 2 <= b < 0x1_0000_0000 && Bytes(a) && beta <= HALF_Q
    ensures AlwaysSplits(a, project, count, beta, b, k)
       <==> Worst(a, project, count, beta) <= MaxRep(b, k) || HALF_Q <= MaxRep(b, k)
  {
    RangesStayAway(b, k);
    BytesAreSmall(a, project);
    hide MaxRep, Worst, Grain, AlwaysSplits;
    SplitsExactly(a, project, count, beta, b, k);
  }

  /** For the alphabet -2 .. 2 the base may be any. */
  lemma CombinationsSplitInCode(count: nat, beta: nat, b: nat, k: nat)
    requires b >= 2 && beta <= HALF_Q
    ensures AlwaysSplits(FIVE, false, count, beta, b, k)
       <==> count * 162 * beta <= MaxRep(b, k) || HALF_Q <= MaxRep(b, k)
  {
    FiveIs();
    hide MaxRep, AlwaysSplits, Size;
    SplitsExactly(FIVE, false, count, beta, b, k);
  }

  // ----- the guard for one number of digits -----

  /** The largest number of claims that the guard lets pass. */
  function LargestCount(t: nat, b: nat, k: nat): nat
    requires t > 0
  {
    Rep(b, k) / t
  }

  lemma LargestCountIs(a: Alphabet, count: nat, b: nat, k: nat)
    requires b >= 2 && Size(a) > 0
    ensures Guard(count, Expansion(a), b, k) <==> count <= LargestCount(108 * Size(a), b, k)
  {
    SizeIsMaxAbs(a);
    hide Size, Rep, Guard, Expansion;
    GuardIsRep(count, Expansion(a), b, k);
    LargestMultiple(count, Rep(b, k), 108 * Size(a));
  }

  lemma LargestMultiple(x: nat, y: nat, t: nat)
    requires t > 0
    ensures x * t <= y <==> x <= y / t
  {
    var n := y / t;
    QuotientBounds(y, t);
    if x <= n {
      MulOrder(x, n, t);
    } else {
      MulOrder(n + 1, x, t);
      assert (n + 1) * t == n * t + t;
    }
  }

  lemma WorstGrows(a: Alphabet, project: bool, count: nat, n: nat, beta: nat)
    requires count <= n
    ensures Worst(a, project, count, beta) <= Worst(a, project, n, beta)
  {
    hide Unit;
    MulOrder(count, n, Unit(a, project));
    MulOrder(count * Unit(a, project), n * Unit(a, project), beta);
  }

  /** What the norm check of the sampling lets pass, as in `Norms.CheckNormBound`. */
  ghost predicate Admits(count: nat, t: nat, b: nat, k: nat) {
    count != 0 && Guard(count, t, b, k) && Pow(b, k) <= U128_MAX
  }

  /** All combinations of sampled challenges split. */
  ghost predicate GuardSufficesAt(a: Alphabet, project: bool, beta: nat, b: nat, k: nat)
    requires b >= 2
  {
    forall count: nat :: Admits(count, Expansion(a), b, k) ==> AlwaysSplits(a, project, count, beta, b, k)
  }

  /** Only the largest number of claims matters. */
  lemma GuardSufficesAtExactly(a: Alphabet, project: bool, beta: nat, b: nat, k: nat)
    requires 2 <= b < 0x1_0000_0000 && Bytes(a) && beta <= HALF_Q && Size(a) > 0
    ensures GuardSufficesAt(a, project, beta, b, k)
       <==> Worst(a, project, LargestCount(108 * Size(a), b, k), beta) <= MaxRep(b, k) || HALF_Q <= MaxRep(b, k)
  {
    var n := LargestCount(108 * Size(a), b, k);
    if Worst(a, project, n, beta) <= MaxRep(b, k) || HALF_Q <= MaxRep(b, k) {
      forall count: nat | Admits(count, Expansion(a), b, k)
        ensures AlwaysSplits(a, project, count, beta, b, k)
      {
        LargestCountIs(a, count, b, k);
        WorstGrows(a, project, count, n, beta);
        hide *;
        CombinationsSplitExactly(a, project, count, beta, b, k);
      }
    } else {
      LargestCountIs(a, n, b, k);
      WorstStep(a, project, 1, beta);
      SmallRange(b, k);
      hide MaxRep, Worst, AlwaysSplits, LargestCount, Expansion, Size, Guard, Pow;
      CombinationsSplitExactly(a, project, n, beta, b, k);
      assert Admits(n, Expansion(a), b, k);
    }
  }

  lemma SmallRange(b: nat, k: nat)
    requires b >= 2 && MaxRep(b, k) < HALF_Q
    ensures Pow(b, k) <= U128_MAX
  {
    MaxRepClosedForm(b, k);
    hide *;
    TwiceCovers(b, b / 2, MaxRep(b, k), Pow(b, k) - 1);
  }

  lemma TwiceCovers(b: nat, h: nat, m: nat, p: int)
    requires b >= 2 && 0 < h && b - 1 <= 2 * h && (b - 1) * m == h * p
    ensures p <= 2 * m
  {
    MulOrder(b - 1, 2 * h, m);
    assert 2 * h * m == h * (2 * m);
    CancelFactor(p, 2 * m, h);
  }

  // ----- the guard for every number of digits -----

  ghost predicate GuardSuffices(a: Alphabet, project: bool, beta: nat, b: nat)
    requires b >= 2
  {
    forall k: nat :: GuardSufficesAt(a, project, beta, b, k)
  }

  /** What one claim reaches, and what the digits grant it under the guard. */
  function Reached(a: Alphabet, project: bool, beta: nat): nat { Unit(a, project) * beta }

  function Granted(a: Alphabet, b: nat): nat { 108 * Size(a) * (b / 2) }

  /** A claim that reaches no more than it is granted: the guard suffices, for every base. */
  lemma GuardSufficesIf(a: Alphabet, project: bool, beta: nat, b: nat)
    requires b >= 2 && Reached(a, project, beta) <= Granted(a, b)
    ensures GuardSuffices(a, project, beta, b)
  {
    forall k: nat, count: nat | Admits(count, Expansion(a), b, k)
      ensures AlwaysSplits(a, project, count, beta, b, k)
    {
      GuardedReach(a, project, count, beta, b, k);
      forall rhos: seq<Rq>, zs: seq<seq<Rq>>, m: nat | Admitted(rhos, zs, m, a, project, count, beta)
        ensures SmallWitness(LinComb(rhos, zs, m, count), MaxRep(b, k))
      {
        hide *;
        ReachBound(rhos, zs, m, a, project, count, beta, MaxRep(b, k));
      }
    }
  }

  lemma GuardedReach(a: Alphabet, project: bool, count: nat, beta: nat, b: nat, k: nat)
    requires b >= 2 && Reached(a, project, beta) <= Granted(a, b) && Guard(count, Expansion(a), b, k)
    ensures Worst(a, project, count, beta) <= MaxRep(b, k)
  {
    SizeIsMaxAbs(a);
    GuardIsRep(count, Expansion(a), b, k);
    RepIs(b, k);
    hide Expansion, Guard, MaxRep, Pow, Rep, Size, Unit;
    GrantedReach(count, Unit(a, project), beta, 108 * Size(a), b / 2, Rep(b, k));
  }

  lemma GrantedReach(count: nat, unit: nat, beta: nat, t: nat, h: nat, rep: nat)
    requires unit * beta <= t * h && count * t <= rep
    ensures count * unit * beta <= h * rep
  {
    MulOrder(unit * beta, t * h, count);
    MulOrder(count * t, rep, h);
    assert count * unit * beta == unit * beta * count;
    assert t * h * count == count * t * h;
  }

  /** Digits on which the largest count under the guard goes beyond the range. */
  lemma GuardFailsAt(a: Alphabet, project: bool, beta: nat, b: nat, k: nat)
    requires 2 <= b < 0x1_0000_0000 && Bytes(a) && beta <= HALF_Q && Size(a) > 0
    requires MaxRep(b, k) < HALF_Q && Reached(a, project, beta) > 0
    requires Rep(b, k) * (Reached(a, project, beta) - Granted(a, b)) >= 108 * Size(a) * Reached(a, project, beta)
    ensures !GuardSuffices(a, project, beta, b)
  {
    GuardSufficesAtExactly(a, project, beta, b, k);
    WorstBeyond(a, project, beta, b, k);
    hide MaxRep, Rep, Size, Worst, LargestCount, GuardSufficesAt;
    assert !GuardSufficesAt(a, project, beta, b, k);
  }

  lemma WorstBeyond(a: Alphabet, project: bool, beta: nat, b: nat, k: nat)
    requires b >= 2 && Size(a) > 0 && Reached(a, project, beta) > 0
    requires Rep(b, k) * (Reached(a, project, beta) - Granted(a, b)) >= 108 * Size(a) * Reached(a, project, beta)
    ensures Worst(a, project, LargestCount(108 * Size(a), b, k), beta) > MaxRep(b, k)
  {
    RepIs(b, k);
    hide MaxRep, Pow, Rep, Size, Unit;
    var n, u := LargestCount(108 * Size(a), b, k), Unit(a, project);
    QuotientBounds(Rep(b, k), 108 * Size(a));
    Overshoot(n, Rep(b, k), 108 * Size(a), u * beta, b / 2);
    Reassociate(n, u, beta);
  }

  lemma Reassociate(x: int, y: int, z: int)
    ensures x * (y * z) == x * y * z
  {}

  lemma Overshoot(n: nat, rep: nat, t: nat, u: nat, h: nat)
    requires t > 0 && u > 0 && rep < n * t + t && rep * (u - t * h) >= t * u
    ensures n * u > h * rep
  {
    MulOrder(rep + 1, n * t + t, u);
    assert (rep + 1) * u == rep * u + u;
    assert (n * t + t) * u == t * (n * u) + t * u;
    assert rep * (u - t * h) == rep * u - t * (h * rep);
    StrictCancel(h * rep, n * u, t);
  }

  // ----- enough digits -----

  /** Wide enough for 2^41, with a range below half of the field. */
  lemma WideDigits(b: nat) returns (k: nat)
    requires 2 <= b <= 4096
    ensures Rep(b, k) >= 0x200_0000_0000 && MaxRep(b, k) < HALF_Q
  {
    var lo, hi;
    lo, hi, k := Interval(b);
    RepMonotone(lo, b, k);
    RangeMonotone(b, hi, k, k);
  }

  lemma Interval(b: nat) returns (lo: nat, hi: nat, k: nat)
    requires 2 <= b <= 4096
    ensures 2 <= lo <= b <= hi && Rep(lo, k) >= 0x200_0000_0000 && MaxRep(hi, k) < HALF_Q
  {
    hide Rep, MaxRep;
    if b == 2 {
      lo, hi, k := 2, 2, 42;
      Interval2();
    } else if b <= 5 {
      lo, hi, k := 3, 5, 27;
      Interval3();
    } else if b <= 8 {
      lo, hi, k := 6, 8, 20;
      Interval6();
    } else if b <= 18 {
      lo, hi, k := 9, 18, 15;
      Interval9();
    } else if b <= 52 {
      lo, hi, k := 19, 52, 11;
      Interval19();
    } else if b <= 127 {
      lo, hi, k := 53, 127, 9;
      Interval53();
    } else if b <= 511 {
      lo, hi, k := 128, 511, 7;
      Interval128();
    } else if b <= 1440 {
      lo, hi, k := 512, 1440, 6;
      Interval512();
    } else {
      lo, hi, k := 1441, 4096, 5;
      Interval1441();
    }
  }

  lemma Interval2()
    ensures Rep(2, 42) >= 0x200_0000_0000 && MaxRep(2, 42) < HALF_Q
  {
    assert Rep(2, 6) == 63;
    assert Rep(2, 12) == 4095;
    assert Rep(2, 18) == 262143;
    assert Rep(2, 24) == 16777215;
    assert Rep(2, 30) == 1073741823;
    assert Rep(2, 36) == 68719476735;
    assert MaxRep(2, 6) == 63;
    assert MaxRep(2, 12) == 4095;
    assert MaxRep(2, 18) == 262143;
    assert MaxRep(2, 24) == 16777215;
    assert MaxRep(2, 30) == 1073741823;
    assert MaxRep(2, 36) == 68719476735;
  }

  lemma Interval3()
    ensures Rep(3, 27) >= 0x200_0000_0000 && MaxRep(5, 27) < HALF_Q
  {
    assert Rep(3, 6) == 364;
    assert Rep(3, 12) == 265720;
    assert Rep(3, 18) == 193710244;
    assert Rep(3, 24) == 141214768240;
    assert MaxRep(5, 6) == 7812;
    assert MaxRep(5, 12) == 122070312;
    assert MaxRep(5, 18) == 1907348632812;
    assert MaxRep(5, 24) == 29802322387695312;
  }

  lemma Interval6()
    ensures Rep(6, 20) >= 0x200_0000_0000 && MaxRep(8, 20) < HALF_Q
  {
    assert Rep(6, 6) == 9331;
    assert Rep(6, 12) == 435356467;
    assert Rep(6, 18) == 20311991333683;
    assert MaxRep(8, 6) == 149796;
    assert MaxRep(8, 12) == 39268272420;
    assert MaxRep(8, 18) == 10293942005418276;
  }

  lemma Interval9()
    ensures Rep(9, 15) >= 0x200_0000_0000 && MaxRep(18, 15) < HALF_Q
  {
    assert Rep(9, 6) == 66430;
    assert Rep(9, 12) == 35303692060;
    assert MaxRep(18, 6) == 18006471;
    assert MaxRep(18, 12) == 612440143107975;
  }

  lemma Interval19()
    ensures Rep(19, 11) >= 0x200_0000_0000 && MaxRep(52, 11) < HALF_Q
  {
    assert Rep(19, 6) == 2613660;
    assert MaxRep(52, 6) == 10079134338;
  }

  lemma Interval53()
    ensures Rep(53, 9) >= 0x200_0000_0000 && MaxRep(127, 9) < HALF_Q
  {
    assert Rep(53, 6) == 426237714;
    assert MaxRep(127, 6) == 2097936457344;
  }

  lemma Interval128()
    ensures Rep(128, 7) >= 0x200_0000_0000 && MaxRep(511, 7) < HALF_Q
  {
    assert Rep(128, 6) == 34630287489;
    assert MaxRep(511, 6) == 8902160194337280;
  }

  lemma Interval512()
    ensures Rep(512, 6) >= 0x200_0000_0000 && MaxRep(1440, 6) < HALF_Q
  {
  }

  lemma Interval1441()
    ensures Rep(1441, 5) >= 0x200_0000_0000 && MaxRep(4096, 5) < HALF_Q
  {
  }

  /** Few digits with a range below half of the field, but enough for a small excess to show. */
  lemma FewDigits(b: nat) returns (k: nat)
    requires 4096 < b < 0x1_0000_0000
    ensures MaxRep(b, k) < HALF_Q && Rep(b, k) >= 151 * 13824
    ensures !NearRoot(b) ==> Rep(b, k) >= 301 * 13824
  {
    hide Rep, MaxRep;
    if b <= 2642245 {
      k := 3;
      Thresholds65536();
      ThreeDigits();
      RangeMonotone(b, 2642245, 3, 3);
      RepMonotone(4097, b, 3);
    } else {
      k := 2;
      Thresholds2642246();
      TwoDigits(b);
      RangeMonotone(b, 4294967295, 2, 2);
    }
  }

  lemma TwoDigits(b: nat)
    ensures Rep(b, 2) == b + 1
  {
    assert Rep(b, 1) == 1 + b * Rep(b, 0) == 1;
  }

  lemma ThreeDigits()
    ensures Rep(4097, 3) >= 301 * 13824
  {
    TwoDigits(4097);
  }

  // ----- the guard for every number of digits, exactly -----

  /** Bases with two digits below half of the field and a square root's worth of claims. */
  predicate NearRoot(b: nat) { 2642245 < b < 0x40_0000 }

  /** The excess of a claim shows: any excess for small bases, one part in 300 or 150 for large ones. */
  ghost predicate Decided(reached: nat, granted: nat, b: nat) {
    reached > granted ==>
      b <= 4096 || 150 * reached >= 151 * granted || (300 * reached >= 301 * granted && !NearRoot(b))
  }

  /** The guard suffices exactly if a claim reaches no more than it is granted, wherever an excess shows. */
  lemma GuardSufficesWhereDecided(a: Alphabet, project: bool, beta: nat, b: nat)
    requires 2 <= b < 0x1_0000_0000 && Bytes(a) && beta < b
    requires Decided(Reached(a, project, beta), Granted(a, b), b)
    ensures GuardSuffices(a, project, beta, b) <==> Reached(a, project, beta) <= Granted(a, b)
  {
    if Reached(a, project, beta) <= Granted(a, b) {
      GuardSufficesIf(a, project, beta, b);
    } else {
      ExcessIsReal(a, project, beta, b);
      hide Reached, Granted, Size, MaxRep, Rep, GuardSuffices, Decided;
      var k := FailingDigits(a, project, beta, b);
      GuardFailsAt(a, project, beta, b, k);
    }
  }

  lemma ExcessIsReal(a: Alphabet, project: bool, beta: nat, b: nat)
    requires Reached(a, project, beta) > Granted(a, b)
    ensures Size(a) > 0
  {
    UnitIsSmall(a, project);
    hide Size, Unit;
    assert 0 * beta == 0;
  }

  lemma FailingDigits(a: Alphabet, project: bool, beta: nat, b: nat) returns (k: nat)
    requires 2 <= b < 0x1_0000_0000 && Bytes(a) && beta < b
    requires Reached(a, project, beta) > Granted(a, b) && Decided(Reached(a, project, beta), Granted(a, b), b)
    ensures MaxRep(b, k) < HALF_Q
    ensures Rep(b, k) * (Reached(a, project, beta) - Granted(a, b)) >= 108 * Size(a) * Reached(a, project, beta)
  {
    var u, v, t := Reached(a, project, beta), Granted(a, b), 108 * Size(a);
    BytesAreSmall(a, project);
    hide Size, MaxRep, Rep;
    if b <= 4096 {
      k := WideDigits(b);
      UnitIsSmall(a, project);
      SmallFactors(Unit(a, project), beta);
      SmallProduct(t, u);
      hide *;
      AnyExcess(Rep(b, k), u, v, t);
    } else {
      hide Reached, Granted;
      k := FewDigits(b);
      var n := if NearRoot(b) then 150 else 300;
      MarginSuffices(Rep(b, k), u, v, t, n);
    }
  }

  lemma SmallFactors(unit: nat, beta: nat)
    requires unit <= 20352 && beta < 4096
    ensures unit * beta <= 20352 * 4095
  {
    MulOrder(unit, 20352, beta);
  }

  lemma SmallProduct(t: nat, x: nat)
    requires t <= 13824 && x <= 20352 * 4095
    ensures t * x <= 0x200_0000_0000 && (x <= 20352 ==> t * x <= 0x1_0000_0000)
  {
    MulOrder(t, 13824, x);
  }

  lemma AnyExcess(rep: nat, u: nat, v: nat, t: nat)
    requires u > v && rep >= t * u
    ensures rep * (u - v) >= t * u
  {
    MulOrder(1, u - v, rep);
  }

  lemma MarginSuffices(rep: nat, u: nat, v: nat, t: nat, n: nat)
    requires u > v && n * u >= (n + 1) * v && rep >= (n + 1) * t
    ensures rep * (u - v) >= t * u
  {
    var e := u - v;
    assert (n + 1) * e >= u by {
      assert (n + 1) * e == n * u + u - (n + 1) * v;
    }
    MulOrder((n + 1) * t, rep, e);
    MulOrder(u, (n + 1) * e, t);
    assert (n + 1) * e * t == (n + 1) * t * e;
  }

  /** Large bases, where two digits are the only ones that matter: whole claims count. */
  lemma GuardForTwoDigits(a: Alphabet, project: bool, beta: nat, b: nat)
    requires 2642245 < b < 0x1_0000_0000 && Bytes(a) && beta < b && Size(a) > 0
    ensures GuardSuffices(a, project, beta, b)
       <==> Worst(a, project, (b + 1) / (108 * Size(a)), beta) <= b / 2 * (b + 1)
  {
    TwoDigits(b);
    RepIs(b, 2);
    assert LargestCount(108 * Size(a), b, 2) == (b + 1) / (108 * Size(a));
    GuardSufficesAtExactly(a, project, beta, b, 2);
    Thresholds2642246();
    RangeMonotone(b, 4294967295, 2, 2);
    hide Size, Worst, MaxRep, Rep, GuardSufficesAt;
    forall k: nat | k != 2
      ensures GuardSufficesAt(a, project, beta, b, k)
    {
      OtherDigits(a, project, beta, b, k);
    }
  }

  lemma OtherDigits(a: Alphabet, project: bool, beta: nat, b: nat, k: nat)
    requires 2642245 < b < 0x1_0000_0000 && Bytes(a) && beta < b && Size(a) > 0 && k != 2
    ensures GuardSufficesAt(a, project, beta, b, k)
  {
    GuardSufficesAtExactly(a, project, beta, b, k);
    hide MaxRep, Worst, Rep, Size, GuardSufficesAt, LargestCount;
    if k >= 3 {
      Thresholds2642246();
      RangeMonotone(2642246, b, 3, k);
    } else {
      NoClaims(108 * Size(a), b, k);
      WorstStep(a, project, 1, beta);
    }
  }

  lemma NoClaims(t: nat, b: nat, k: nat)
    requires t > 1 && k <= 1
    ensures LargestCount(t, b, k) == 0
  {
    assert Rep(b, k) <= 1;
    hide Rep;
  }

  // ----- the guard of the folding loop: balanced digits -----

  /**
   Entries that are balanced digits, as the folding loop carries them: the guard suffices for all
   counts and digits exactly if a challenge reaches no more than the expansion factor.  It always does
   so without the projection.
   */
  lemma GuardForDigits(a: Alphabet, project: bool, b: nat)
    requires 2 <= b <= 2642245 && Bytes(a)
    ensures GuardSuffices(a, project, b / 2, b) <==> Unit(a, project) <= 108 * Size(a)
    ensures Unit(a, false) <= 108 * Size(a)
  {
    BytesAreSmall(a, project);
    UnitIsSmall(a, project);
    assert Width(a) <= 2 * Size(a);
    hide Size, Width, GuardSuffices, Unit, Rep, MaxRep;
    var t, u, h := 108 * Size(a), Unit(a, project), b / 2;
    if u <= t {
      MulOrder(u, t, h);
      GuardSufficesIf(a, project, h, b);
    } else {
      var k := DigitsForClaims(b);
      SmallProduct(t, u);
      UnitExcess(Rep(b, k), u, t, h);
      GuardFailsAt(a, project, h, b, k);
    }
  }

  lemma UnitExcess(rep: nat, u: nat, t: nat, h: nat)
    requires u > t && h > 0 && rep >= t * u
    ensures u * h > 0 && rep * (u * h - t * h) >= t * (u * h)
  {
    MulOrder(1, u, h);
    assert u * h - t * h == (u - t) * h;
    MulOrder(1, u - t, h);
    MulOrder(t * u, rep, h);
    MulOrder(h, (u - t) * h, rep);
    assert t * u * h == t * (u * h);
  }

  /** Wide enough for 13824 * 20352. */
  lemma DigitsForClaims(b: nat) returns (k: nat)
    requires 2 <= b <= 2642245
    ensures Rep(b, k) >= 0x1_0000_0000 && MaxRep(b, k) < HALF_Q
  {
    hide Rep, MaxRep;
    if b <= 4096 {
      k := WideDigits(b);
    } else if b <= 65535 {
      k := 4;
      Thresholds7132();
      FourDigits();
      RangeMonotone(b, 65535, 4, 4);
      RepMonotone(4097, b, 4);
    } else {
      k := 3;
      Thresholds65536();
      FourDigits();
      RangeMonotone(b, 2642245, 3, 3);
      RepMonotone(65536, b, 3);
    }
  }

  lemma FourDigits()
    ensures Rep(4097, 4) >= 0x1_0000_0000 && Rep(65536, 3) >= 0x1_0000_0000
  {
    TwoDigits(4097);
    TwoDigits(65536);
  }

  // ----- the guard of the sampling: entries up to b - 1 -----

  /**
   Builds without the projection, entries up to b - 1 as the guard supposes: it suffices for all
   counts and digits exactly under this condition on the alphabet and the base.
   */
  lemma GuardSufficesExactly(a: Alphabet, b: nat)
    requires 2 <= b < 0x1_0000_0000 && Bytes(a) && !NearRoot(b)
    ensures GuardSuffices(a, false, b - 1, b) <==> (Size(a) + Spread(a)) * (b - 1) <= 4 * Size(a) * (b / 2)
  {
    BytesAreSmall(a, false);
    SpreadCovers(a);
    hide Size, Spread, GuardSuffices;
    var s, p, h := Size(a), Spread(a), b / 2;
    assert Reached(a, false, b - 1) == 27 * ((s + p) * (b - 1)) by { Reassociate(27, s + p, b - 1); }
    assert Granted(a, b) == 27 * (4 * s * h) by { Reassociate(27, 4 * s, h); }
    if b > 4096 && (s + p) * (b - 1) > 4 * s * h {
      ExcessShows(s, p - s, b, h);
      assert s + (s + (p - s)) == s + p;
    }
    hide Reached, Granted;
    GuardSufficesWhereDecided(a, false, b - 1, b);
  }

  lemma ExcessShows(s: nat, e: nat, b: nat, h: nat)
    requires s <= 128 && 4096 < b && h == b / 2 && (s + (s + e)) * (b - 1) > 4 * s * h
    ensures 300 * ((s + (s + e)) * (b - 1)) >= 301 * (4 * s * h)
  {
    assert (s + (s + e)) * (b - 1) == 2 * (s * (b - 1)) + e * (b - 1);
    assert 4 * s * h == 4 * (s * h);
    var d := 2 * h - (b - 1);
    assert s * (b - 1) == 2 * (s * h) - s * d;
    assert 0 <= d <= 1 && s * d <= s by { MulOrder(d, 1, s); }
    if e != 0 {
      MulOrder(1, e, b - 1);
      MulOrder(s, 128, h);
    }
  }

  /** Symmetric alphabets such as -2 .. 2: the guard suffices for base 2 and for no other. */
  lemma GuardForSymmetric(a: Alphabet, b: nat)
    requires 2 <= b < 0x1_0000_0000 && Bytes(a) && Lo(a) == -Hi(a) && Hi(a) > 0
    ensures GuardSuffices(a, false, b - 1, b) <==> b == 2
  {
    SymmetricUnits(a);
    ThreeQuarters(Size(a), b, b / 2);
    hide Size, Unit, GuardSuffices;
    GuardSufficesWhereDecided(a, false, b - 1, b);
  }

  lemma SymmetricUnits(a: Alphabet)
    requires Lo(a) == -Hi(a) && Hi(a) > 0
    ensures Size(a) > 0 && Unit(a, false) == 81 * Size(a) && Unit(a, true) == 159 * Size(a)
  {}

  lemma ThreeQuarters(s: nat, b: nat, h: nat)
    requires s > 0 && b >= 2 && h == b / 2
    ensures 81 * s * (b - 1) <= 108 * s * h <==> b == 2
    ensures b > 4096 ==> 150 * (81 * s * (b - 1)) >= 151 * (108 * s * h)
  {
    Reassociate(81, s, b - 1);
    Reassociate(108, s, h);
    CommonFactor(s, 81, b - 1, 108, h);
    CommonFactor(s, 150 * 81, b - 1, 151 * 108, h);
  }

  lemma CommonFactor(s: nat, c: nat, x: nat, d: nat, y: nat)
    requires s > 0
    ensures c * (s * x) <= d * (s * y) <==> c * x <= d * y
    ensures c * (s * x) >= d * (s * y) <==> c * x >= d * y
  {
    assert c * (s * x) == s * (c * x) && d * (s * y) == s * (d * y);
    Cancel(s, c * x, d * y);
    Cancel(s, d * y, c * x);
  }

  lemma Cancel(s: nat, x: nat, y: nat)
    requires s > 0
    ensures s * x <= s * y <==> x <= y
  {
    if x <= y {
      MulOrder(x, y, s);
    } else {
      MulOrder(y + 1, x, s);
    }
  }

  /** Alphabets no wider than large, such as all those of one sign: the guard suffices for every base. */
  lemma GuardForOneSign(a: Alphabet, b: nat)
    requires b >= 2 && Width(a) <= Size(a)
    ensures GuardSuffices(a, false, b - 1, b)
  {
    hide Size, Width, GuardSuffices;
    var s := Size(a);
    assert Unit(a, false) == 54 * s;
    MulOrder(b - 1, 2 * (b / 2), 54 * s);
    assert 54 * s * (2 * (b / 2)) == 108 * s * (b / 2);
    GuardSufficesIf(a, false, b - 1, b);
  }

  // ----- the guard in builds with the projection -----

  /**
   With the projection the guard suffices for no base: challenges of a symmetric alphabet reach
   159 where the guard counts 108, already on balanced digits.
   */
  lemma GuardWithProjection(a: Alphabet, beta: nat, b: nat)
    requires 2 <= b < 0x1_0000_0000 && Bytes(a) && Lo(a) == -Hi(a) && Hi(a) > 0 && b / 2 <= beta < b
    ensures !GuardSuffices(a, true, beta, b)
  {
    SymmetricUnits(a);
    HalfMore(Size(a), beta, b / 2);
    hide Size, Unit, GuardSuffices;
    GuardSufficesWhereDecided(a, true, beta, b);
  }

  lemma HalfMore(s: nat, beta: nat, h: nat)
    requires s > 0 && 0 < h <= beta
    ensures 159 * s * beta > 108 * s * h && 150 * (159 * s * beta) >= 151 * (108 * s * h)
  {
    MulOrder(h, beta, s);
    MulOrder(1, s, h);
    assert 159 * s * beta == 159 * (beta * s) && 108 * s * h == 108 * (h * s);
  }

  // ----- instances -----

  /**
   Base 3, four claims, k_rho = 7: the guard holds and every witness entry is at most b - 1, yet the
   combination holds 1296, which seven balanced digits cannot represent.
   */
  lemma GuardIsNotEnoughForBaseThree() returns (rhos: seq<Rq>, zs: seq<seq<Rq>>)
    ensures Admitted(rhos, zs, 1, FIVE, false, 4, 3 - 1)
    ensures Guard(4, Expansion(FIVE), 3, 7)
    ensures !SmallWitness(LinComb(rhos, zs, 1, 4), MaxRep(3, 7))
  {
    FiveIs();
    assert Rep(3, 3) == 13 && Rep(3, 5) == 121 && Rep(3, 7) == 1093;
    RepIs(3, 7);
    GuardIsRep(4, 216, 3, 7);
    hide Rep, MaxRep, Admitted, LinComb, SmallWitness, Guard, Expansion;
    rhos, zs := ReachBeyond(FIVE, false, 4, 2, 1093);
  }

  /** Base 2, one claim, k_rho = 8, projected challenges: the guard holds, and an entry is beyond 255. */
  lemma GuardIsNotEnoughWithProjection() returns (rhos: seq<Rq>, zs: seq<seq<Rq>>)
    ensures Admitted(rhos, zs, 1, FIVE, true, 1, 1)
    ensures Guard(1, Expansion(FIVE), 2, 8)
    ensures !SmallWitness(LinComb(rhos, zs, 1, 1), MaxRep(2, 8))
  {
    FiveIs();
    assert Rep(2, 4) == 15 && Rep(2, 8) == 255;
    RepIs(2, 8);
    GuardIsRep(1, 216, 2, 8);
    hide Rep, MaxRep, Admitted, LinComb, SmallWitness, Guard, Expansion;
    rhos, zs := ReachBeyond(FIVE, true, 1, 1, 255);
  }

  /** Near 2^21.4 the condition is not needed: 200 claims pass the guard, and 200 claims still split. */
  lemma ConditionNotNeededNearRoot()
    ensures var (a, b) := ([-128, 1], 2775601);
            && Bytes(a) && NearRoot(b) && GuardSuffices(a, false, b - 1, b)
            && !((Size(a) + Spread(a)) * (b - 1) <= 4 * Size(a) * (b / 2))
  {
    var a: Alphabet, beta, b := [-128, 1], 2775600, 2775601;
    TwoBytes();
    hide Size, Spread, Unit, Lo, Hi;
    GuardForTwoDigits(a, false, beta, b);
  }

  lemma TwoBytes()
    ensures Bytes([-128, 1]) && Size([-128, 1]) == 128 && Spread([-128, 1]) == 129
  {
    var a: Alphabet := [-128, 1];
    hide Lo, Hi;
    assert a[0] == -128 && a[1] == 1;
    assert -128 in a && 1 in a;
    assert forall y :: y in a ==> y == -128 || y == 1;
    assert Lo(a) == -128 && Hi(a) == 1;
  }
}
