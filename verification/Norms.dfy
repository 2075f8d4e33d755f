/**
 Norm growth of the random linear combination: integer representatives of rotated witnesses stay
 within the expansion factor, and the exponent k_rho chosen for it lets every split succeed.
 */
module Norms {
  import opened Arithmetic
  import opened Field
  import opened Vectors
  import opened Ring
  import opened Ajtai
  import opened Digits

  // ----- the ring over the integers -----

  type IntRq = v: seq<int> | |v| == D witness seq(D, i => 0)

  function IntShift(v: IntRq): IntRq {
    seq(D, k requires 0 <= k < D => IntShiftAt(v, k))
  }

  function IntShiftAt(v: IntRq, k: nat): int
    requires k < D
  {
    if k == 0 then -v[D - 1]
    else if k == H then v[H - 1] - v[D - 1]
    else v[k - 1]
  }

  /** The sum of z[t] X^t v over the integers. */
  function IntAct(z: seq<int>, v: IntRq): IntRq {
    if z == [] then seq(D, i => 0)
    else
      var rest := IntAct(z[1..], IntShift(v));
      seq(D, i requires 0 <= i < D => z[0] * v[i] + rest[i])
  }

  function RedVec(v: seq<int>): (u: Vec)
    ensures |u| == |v|
  {
    seq(|v|, i requires 0 <= i < |v| => Red(v[i]))
  }

  /** Reduction modulo q carries the integer product to the ring product. */
  lemma {:induction false} RedAct(z: seq<int>, v: IntRq)
    ensures RedVec(IntAct(z, v)) == Act(RedVec(z), RedVec(v))
  {
    hide Red, Mul, Add;
    if z == [] {
      RedCanonical(0);
    } else {
      RedShift(v);
      RedAct(z[1..], IntShift(v));
      assert RedVec(z)[1..] == RedVec(z[1..]);
      var rest := IntAct(z[1..], IntShift(v));
      forall i | 0 <= i < D
        ensures Red(z[0] * v[i] + rest[i]) == Add(Mul(Red(z[0]), Red(v[i])), RedVec(rest)[i])
      {
        RedAdd(z[0] * v[i], rest[i]);
        RedMul(z[0], v[i]);
      }
    }
  }

  lemma RedShift(v: IntRq)
    ensures RedVec(IntShift(v)) == Shift(RedVec(v))
  {
    RedAdd(0, v[D - 1]);
    RedAdd(v[D - 1], 0);
    RedAdd(v[H - 1], v[D - 1]);
    hide Red;
    assert forall k :: 0 <= k < D ==> RedVec(IntShift(v))[k] == ShiftAt(RedVec(v), k);
  }

  // ----- expansion -----

  ghost predicate Bounded(v: seq<int>, bound: int) {
    forall i :: 0 <= i < |v| ==> Abs(v[i]) <= bound
  }

  /** Bounded halves whose difference is bounded too: what a rotation keeps. */
  ghost predicate PairBounded(v: IntRq, bound: int) {
    forall i :: 0 <= i < H ==> PairAt(v, bound, i)
  }

  ghost predicate PairAt(v: IntRq, bound: int, i: nat)
    requires i < H
  {
    Abs(v[i]) <= bound && Abs(v[H + i]) <= bound && Abs(v[i] - v[H + i]) <= bound
  }

  lemma PairBoundedIsBounded(v: IntRq, bound: int)
    requires PairBounded(v, bound)
    ensures Bounded(v, bound)
  {
    forall i | 0 <= i < D
      ensures Abs(v[i]) <= bound
    {
      assert PairAt(v, bound, if i < H then i else i - H);
    }
  }

  lemma ShiftKeepsPairs(v: IntRq, bound: int)
    requires PairBounded(v, bound)
    ensures PairBounded(IntShift(v), bound)
  {
    var w := IntShift(v);
    forall i | 0 <= i < H
      ensures PairAt(w, bound, i)
    {
      assert w[i] == IntShiftAt(v, i) && w[H + i] == IntShiftAt(v, H + i);
      assert PairAt(v, bound, if i == 0 then H - 1 else i - 1);
    }
  }

  lemma SmallIsPairBounded(v: IntRq, c: nat)
    requires Bounded(v, c)
    ensures PairBounded(v, 2 * c)
  {}

  lemma TermBound(x: int, y: int, a: nat, b: nat)
    requires Abs(x) <= a && Abs(y) <= b
    ensures Abs(x * y) <= a * b
  {
    var u, w := Abs(x), Abs(y);
    assert u * w <= a * w by { MulOrder(u, a, w); }
    assert w * a <= b * a by { MulOrder(w, b, a); }
    assert u * w == Abs(x * y);
  }

  /** Theorem 3 of the paper: a product with an element of the alphabet grows at most by T = 2 D c. */
  lemma {:induction false} ActBounded(z: seq<int>, v: IntRq, beta: nat, m: nat)
    requires Bounded(z, beta) && PairBounded(v, m)
    ensures Bounded(IntAct(z, v), |z| * (beta * m))
  {
    if z != [] {
      ShiftKeepsPairs(v, m);
      PairBoundedIsBounded(v, m);
      ActBounded(z[1..], IntShift(v), beta, m);
      var rest, w := IntAct(z[1..], IntShift(v)), IntAct(z, v);
      var unit := beta * m;
      assert |z| * unit == |z[1..]| * unit + unit;
      forall i | 0 <= i < D
        ensures Abs(w[i]) <= |z| * unit
      {
        TermBound(z[0], v[i], beta, m);
        assert Abs(rest[i]) <= |z[1..]| * unit;
      }
    }
  }

  /** `expansion_factor_T`. */
  function Expansion(alphabet: seq<int>): (t: nat)
    ensures forall c: nat :: Bounded(alphabet, c) ==> t <= 2 * D * c
    ensures exists c: nat :: Bounded(alphabet, c) && t == 2 * D * c
  {
    assert Bounded(alphabet, MaxAbs(alphabet));
    2 * D * MaxAbs(alphabet)
  }

  function MaxAbs(alphabet: seq<int>): (c: nat)
    ensures Bounded(alphabet, c)
    ensures forall d: nat :: Bounded(alphabet, d) ==> c <= d
  {
    if alphabet == [] then 0
    else
      var rest, x := MaxAbs(alphabet[1..]), Abs(alphabet[0]);
      assert forall d: nat :: Bounded(alphabet, d) ==> Bounded(alphabet[1..], d);
      assert forall i :: 1 <= i < |alphabet| ==> alphabet[i] == alphabet[1..][i - 1];
      if x > rest then x else rest
  }

  // ----- the combined witness -----

  function CenteredVec(u: Vec): (v: seq<int>)
    ensures |v| == |u|
  {
    seq(|u|, i requires 0 <= i < |u| => Centered(u[i]))
  }

  lemma RedCentered(u: Vec)
    ensures RedVec(CenteredVec(u)) == u
  {
    forall i | 0 <= i < |u|
      ensures Red(Centered(u[i])) == u[i]
    {
      RedOfCentered(u[i]);
    }
  }

  /** No representative is smaller than the centred one. */
  lemma CenteredIsLeast(x: int)
    ensures Abs(Centered(Red(x))) <= Abs(x)
  {
    var k := RedSplit(x);
    hide Red;
    var u := Red(x);
    if k > 0 {
      MulOrder(1, k, Q);
    } else if k < -1 {
      MulOrder(k, -2, Q);
    }
  }

  /** Every coefficient of a witness has a small representative. */
  ghost predicate SmallWitness(z: seq<Rq>, beta: nat) {
    forall j :: 0 <= j < |z| ==> Bounded(CenteredVec(z[j]), beta)
  }

  ghost predicate SmallChallenges(rhos: seq<Rq>, c: nat) {
    forall i :: 0 <= i < |rhos| ==> Bounded(CenteredVec(rhos[i]), c)
  }

  /** Integer representative of column j of the first n terms. */
  function IntMix(rhos: seq<Rq>, zs: seq<seq<Rq>>, m: nat, j: nat, n: nat): IntRq
    requires n <= |rhos| && n <= |zs| && SameLength(zs, m) && j < m
  {
    if n == 0 then seq(D, i => 0)
    else
      var rest := IntMix(rhos, zs, m, j, n - 1);
      var term := IntAct(CenteredVec(zs[n - 1][j]), CenteredVec(rhos[n - 1]));
      seq(D, i requires 0 <= i < D => rest[i] + term[i])
  }

  lemma {:induction false} MixReduces(rhos: seq<Rq>, zs: seq<seq<Rq>>, m: nat, j: nat, n: nat)
    requires n <= |rhos| && n <= |zs| && SameLength(zs, m) && j < m
    ensures RedVec(IntMix(rhos, zs, m, j, n)) == LinComb(rhos, zs, m, n)[j]
  {
    hide Red, Add, Act, IntAct, CenteredVec;
    if n == 0 {
      RedCanonical(0);
    } else {
      MixReduces(rhos, zs, m, j, n - 1);
      var u, r := CenteredVec(zs[n - 1][j]), CenteredVec(rhos[n - 1]);
      RedAct(u, r);
      RedCentered(zs[n - 1][j]);
      RedCentered(rhos[n - 1]);
      TimesComm(rhos[n - 1], zs[n - 1][j]);
      var rest := IntMix(rhos, zs, m, j, n - 1);
      forall i | 0 <= i < D
        ensures Red(rest[i] + IntAct(u, r)[i]) == Add(RedVec(rest)[i], RedVec(IntAct(u, r))[i])
      {
        RedAdd(rest[i], IntAct(u, r)[i]);
      }
    }
  }

  lemma {:induction false} MixBounded(rhos: seq<Rq>, zs: seq<seq<Rq>>, m: nat, j: nat, n: nat, c: nat, beta: nat)
    requires n <= |rhos| && n <= |zs| && SameLength(zs, m) && j < m
    requires SmallChallenges(rhos, c)
    requires forall i :: 0 <= i < |zs| ==> SmallWitness(zs[i], beta)
    ensures Bounded(IntMix(rhos, zs, m, j, n), n * (2 * D * c * beta))
  {
    if n != 0 {
      MixBounded(rhos, zs, m, j, n - 1, c, beta);
      var u, r := CenteredVec(zs[n - 1][j]), CenteredVec(rhos[n - 1]);
      assert Bounded(u, beta) && Bounded(r, c);
      SmallIsPairBounded(r, c);
      ActBounded(u, r, beta, 2 * c);
      var unit := 2 * D * c * beta;
      ExpansionUnit(c, beta);
      assert n * unit == (n - 1) * unit + unit;
    }
  }

  lemma ExpansionUnit(c: nat, beta: nat)
    ensures D * (beta * (2 * c)) == 2 * D * c * beta
  {}

  /** count * T * beta, with T = 2 D c. */
  function Growth(count: nat, c: nat, beta: nat): nat { count * (2 * D * c * beta) }

  /**
   Every entry of the combination of count small witnesses has a representative of size at most
   count * T * beta.
   */
  lemma CombinationIsSmall(rhos: seq<Rq>, zs: seq<seq<Rq>>, m: nat, c: nat, beta: nat)
    requires |rhos| == |zs| && SameLength(zs, m) && SmallChallenges(rhos, c)
    requires forall i :: 0 <= i < |zs| ==> SmallWitness(zs[i], beta)
    ensures SmallWitness(LinComb(rhos, zs, m, |zs|), Growth(|zs|, c, beta))
  {
    var mix := LinComb(rhos, zs, m, |zs|);
    forall j, i | 0 <= j < m && 0 <= i < D
      ensures Abs(CenteredVec(mix[j])[i]) <= Growth(|zs|, c, beta)
    {
      hide Red, LinComb, Centered, SmallChallenges, SmallWitness;
      MixReduces(rhos, zs, m, j, |zs|);
      MixBounded(rhos, zs, m, j, |zs|, c, beta);
      CenteredIsLeast(IntMix(rhos, zs, m, j, |zs|)[i]);
    }
  }

  // ----- the exponent -----

  const U128_MAX: int := 0xFFFF_FFFF_FFFF_FFFF_FFFF_FFFF_FFFF_FFFF

  datatype Exponent =
    | MinK(k: nat)
    | CountIsZero
    | InvalidBase
    | PowerOverflow

  /** The guard of section 4.3 of the paper. */
  ghost predicate Guard(count: nat, t: nat, b: nat, k: nat) {
    GuardFor(count * t, b, k)
  }

  ghost predicate GuardFor(n: nat, b: nat, k: nat) { n * (b - 1) < Pow(b, k) }

  /** `min_k_rho_for_rlc_count`: the least exponent that meets the guard. */
  method MinKRho(count: nat, t: nat, b: nat) returns (r: Exponent)
    ensures r.CountIsZero? <==> count == 0
    ensures r.InvalidBase? <==> count != 0 && b < 2
    ensures r.MinK? ==> Guard(count, t, b, r.k) && Pow(b, r.k) <= U128_MAX
    ensures r.MinK? ==> forall j :: 0 <= j < r.k ==> !Guard(count, t, b, j)
    ensures r.PowerOverflow? ==> forall j :: Pow(b, j) <= U128_MAX ==> !Guard(count, t, b, j)
  {
    if count == 0 {
      return CountIsZero;
    }
    if b < 2 {
      return InvalidBase;
    }
    var lhs := count * t * (b - 1);
    var k, pow := 0, 1;
    while lhs >= pow
      invariant pow == Pow(b, k) && pow <= U128_MAX
      invariant forall j :: 0 <= j < k ==> !Guard(count, t, b, j)
      decreases lhs - pow
    {
      PowPositive(b, k);
      MulOrder(2, b, pow);
      assert Pow(b, k + 1) == b * pow && b * pow >= 2 * pow;
      if pow * b > U128_MAX {
        assert b * pow == pow * b;
        forall j: nat | Pow(b, j) <= U128_MAX
          ensures !Guard(count, t, b, j)
        {
          if j >= k + 1 {
            PowGrows(b, k + 1, j);
          }
        }
        return PowerOverflow;
      }
      k, pow := k + 1, pow * b;
      assert pow == Pow(b, k);
    }
    r := MinK(k);
  }

  lemma {:induction false} PowGrows(b: nat, j: nat, k: nat)
    requires b >= 1 && j <= k
    ensures Pow(b, j) <= Pow(b, k)
    decreases k - j
  {
    if j < k {
      PowGrows(b, j + 1, k);
      PowPositive(b, j);
      MulOrder(1, b, Pow(b, j));
      assert b * Pow(b, j) >= 1 * Pow(b, j);
    }
  }

  /** Any exponent from the least one on meets the guard. */
  lemma GuardGrows(count: nat, t: nat, b: nat, j: nat, k: nat)
    requires b >= 1 && j <= k && Guard(count, t, b, j)
    ensures Guard(count, t, b, k)
  {
    PowGrows(b, j, k);
  }

  datatype Rejection = NoRejection | ByCount | ByBase | ByOverflow | ByNorm

  /** The norm check of `sample_rot_rhos_n`. */
  method CheckNormBound(count: nat, t: nat, b: nat, kRho: nat) returns (r: Rejection)
    ensures r.NoRejection? <==> count != 0 && b >= 2 && Guard(count, t, b, kRho) && Pow(b, kRho) <= U128_MAX
    ensures r.ByCount? <==> count == 0
    ensures r.ByBase? <==> count != 0 && b < 2
    ensures r.ByNorm? ==> !Guard(count, t, b, kRho) && Pow(b, kRho) <= U128_MAX
    ensures r.ByNorm? ==> exists j :: Pow(b, j) <= U128_MAX && Guard(count, t, b, j)
    ensures r.ByOverflow? ==> Pow(b, kRho) > U128_MAX || forall j :: Pow(b, j) <= U128_MAX ==> !Guard(count, t, b, j)
  {
    var least := MinKRho(count, t, b);
    match least
    case CountIsZero => return ByCount;
    case InvalidBase => return ByBase;
    case PowerOverflow => return ByOverflow;
    case MinK(k) =>
      if Pow(b, kRho) > U128_MAX {
        return ByOverflow;
      }
      if kRho < k {
        return ByNorm;
      }
      GuardGrows(count, t, b, k, kRho);
      r := NoRejection;
  }

  // ----- the guard and the split -----

  /** On entries that are balanced digits, the guard is exactly strong enough for every base. */
  lemma GuardCoversDigits(n: nat, b: nat, k: nat)
    requires b >= 2 && GuardFor(n, b, k)
    ensures n * (b / 2) <= MaxRep(b, k)
  {
    MaxRepClosedForm(b, k);
    DigitGuard(n, b / 2, MaxRep(b, k), Pow(b, k), b);
  }

  lemma DigitGuard(n: nat, h: nat, m: int, p: int, b: nat)
    requires b >= 2 && n * (b - 1) < p && (b - 1) * m == h * (p - 1)
    ensures n * h <= m
  {
    var x := n * (b - 1);
    MulOrder(x, p - 1, h);
    assert x * h == (b - 1) * (n * h);
    CancelFactor(n * h, m, b - 1);
  }

  lemma CancelFactor(x: int, y: int, c: int)
    requires c > 0 && c * x <= c * y
    ensures x <= y
  {
    MulOrder(y, x, c);
  }

  /** Values below b^k, which the guard alone admits, all split exactly when b is 2 or k is 0. */
  lemma GuardedValuesSplit(b: nat, k: nat)
    requires b >= 2
    ensures (forall v: int :: Abs(v) < Pow(b, k) ==> Rest(v, b, k) == 0) <==> b == 2 || k == 0
  {
    PowPositive(b, k);
    ExactGuard(b, k, Pow(b, k) - 1);
    GuardedRange(b, k);
    hide Rest, Pow, MaxRep;
    assert forall v: int :: Abs(v) < Pow(b, k) <==> Abs(v) <= Pow(b, k) - 1;
  }

  lemma GuardedRange(b: nat, k: nat)
    requires b >= 2
    ensures Pow(b, k) - 1 <= MaxRep(b, k) <==> b == 2 || k == 0
  {
    MaxRepClosedForm(b, k);
    if b > 2 && k > 0 {
      PowGrows(b, 1, k);
      assert Pow(b, 1) == b * Pow(b, 0) == b;
      LargestExceeds(b, Pow(b, k) - 1, MaxRep(b, k));
    }
  }

  lemma LargestExceeds(b: nat, v: int, m: int)
    requires b >= 3 && v >= b - 1 && (b - 1) * m == (b / 2) * v
    ensures v > m
  {
    var h := b / 2;
    MulOrder(h + 1, b - 1, v);
    assert (h + 1) * v == h * v + v;
    StrictCancel(m, v, b - 1);
  }

  lemma StrictCancel(x: int, y: int, c: int)
    requires c > 0 && c * x < c * y
    ensures x < y
  {
    MulOrder(y, x, c);
  }

  /** Entries that any k-digit split of the whole range [-n, n] must represent: the exact guard. */
  lemma ExactGuard(b: nat, k: nat, n: nat)
    requires b >= 2
    ensures (forall v: int :: Abs(v) <= n ==> Rest(v, b, k) == 0) <==> n <= MaxRep(b, k)
  {
    if n <= MaxRep(b, k) {
      forall v: int | Abs(v) <= n
        ensures Rest(v, b, k) == 0
      {
        SplitSucceedsExactly(v, b, k);
      }
    } else {
      SplitSucceedsExactly(n, b, k);
    }
  }

  /** RLC then DEC never overflows: small digits in, guard met, hence every entry of the mix splits. */
  lemma CombinationSplits(rhos: seq<Rq>, zs: seq<seq<Rq>>, m: nat, c: nat, b: nat, k: nat)
    requires b >= 2 && |rhos| == |zs| && SameLength(zs, m) && SmallChallenges(rhos, c)
    requires forall i :: 0 <= i < |zs| ==> SmallWitness(zs[i], b / 2)
    requires Guard(|zs|, 2 * D * c, b, k)
    ensures SmallWitness(LinComb(rhos, zs, m, |zs|), MaxRep(b, k))
  {
    CombinationIsSmall(rhos, zs, m, c, b / 2);
    GuardBound(|zs|, c, b, k);
    hide *;
    Weaken(LinComb(rhos, zs, m, |zs|), Growth(|zs|, c, b / 2), MaxRep(b, k));
  }

  lemma GuardBound(n: nat, c: nat, b: nat, k: nat)
    requires b >= 2 && Guard(n, 2 * D * c, b, k)
    ensures Growth(n, c, b / 2) <= MaxRep(b, k)
  {
    GuardCoversDigits(n * (2 * D * c), b, k);
    hide MaxRep, Pow, Guard, GuardFor;
    Regroup(n, 2 * D * c, b / 2);
  }

  lemma Regroup(n: nat, t: nat, h: nat)
    ensures n * (t * h) == n * t * h
  {}

  lemma Weaken(z: seq<Rq>, a: nat, b: nat)
    requires SmallWitness(z, a) && a <= b
    ensures SmallWitness(z, b)
  {
    forall j | 0 <= j < |z|
      ensures Bounded(CenteredVec(z[j]), b)
    {
      assert Bounded(CenteredVec(z[j]), a);
    }
  }

  lemma CenteredOfReduced(v: IntRq, c: nat)
    requires Bounded(v, c) && c <= HALF_Q
    ensures CenteredVec(RedVec(v)) == v
  {
    forall i | 0 <= i < D
      ensures Centered(Red(v[i])) == v[i]
    {
      CenteredOfSmall(v[i]);
    }
  }
}
