/**
 How far combinations of small witnesses really reach, for every challenge alphabet, with and without
 the projection a + theta(a) of the challenges: the exact bound, and exactly when every combination
 splits.
 */
module Reach {
  import opened Arithmetic
  import opened Field
  import opened Vectors
  import opened Ring
  import opened Ajtai
  import opened Digits
  import opened Norms
  import opened Quaternion

  // ----- the rows of a rotation -----

  /** Coefficient j modulo 81, zero from D on. */
  function Ext(v: IntRq, j: int): int {
    if j % 81 < D then v[j % 81] else 0
  }

  /** X^27 times a high coefficient falls back on row i from here. */
  function Partner(i: nat): nat { if i < H then i + D else i + H }

  /** Coefficient i of X^t v. */
  function RowAt(v: IntRq, t: nat, i: nat): int {
    Ext(v, i - t) - Ext(v, Partner(i) - t)
  }

  function XPower(v: IntRq, t: nat): IntRq {
    seq(D, i requires 0 <= i < D => RowAt(v, t, i))
  }

  lemma XPowerZero(v: IntRq)
    ensures XPower(v, 0) == v
  {
    forall i | 0 <= i < D
      ensures RowAt(v, 0, i) == v[i]
    {}
  }

  lemma XPowerShift(v: IntRq, t: nat)
    ensures IntShift(XPower(v, t)) == XPower(v, t + 1)
  {
    forall i | 0 <= i < D
      ensures IntShiftAt(XPower(v, t), i) == RowAt(v, t + 1, i)
    {
      assert Ext(v, 80 - t) == Ext(v, -1 - t) by { assert (80 - t) % 81 == (-1 - t) % 81; }
      hide Ext;
      if i != 0 && i != H {
        assert Partner(i) == Partner(i - 1) + 1;
      }
    }
  }

  lemma ActStep(z: seq<int>, v: IntRq, i: nat)
    requires z != [] && i < D
    ensures IntAct(z, v)[i] == z[0] * v[i] + IntAct(z[1..], IntShift(v))[i]
  {}

  // ----- alphabets and challenges -----

  type Alphabet = a: seq<int> | a != [] witness [0]

  function Lo(a: Alphabet): (x: int)
    ensures x in a && forall y :: y in a ==> x <= y
  {
    if |a| == 1 then a[0]
    else
      var x := Lo(a[1..]);
      assert forall y :: y in a ==> y == a[0] || y in a[1..];
      if a[0] < x then a[0] else x
  }

  function Hi(a: Alphabet): (x: int)
    ensures x in a && forall y :: y in a ==> y <= x
  {
    if |a| == 1 then a[0]
    else
      var x := Hi(a[1..]);
      assert forall y :: y in a ==> y == a[0] || y in a[1..];
      if a[0] > x then a[0] else x
  }

  function Max(a: int, b: int): int { if a < b then b else a }

  /** The largest coefficient. */
  function Size(a: Alphabet): nat { Max(Abs(Lo(a)), Abs(Hi(a))) }

  /** The largest difference of two coefficients. */
  function Width(a: Alphabet): nat { Hi(a) - Lo(a) }

  function Spread(a: Alphabet): nat { Max(Width(a), Size(a)) }

  /** A coefficient of largest size. */
  function Peak(a: Alphabet): (x: int)
    ensures x in a && Abs(x) == Size(a)
  {
    if Abs(Hi(a)) >= Abs(Lo(a)) then Hi(a) else Lo(a)
  }

  /** The extreme opposite to the peak. */
  function Foot(a: Alphabet): (x: int)
    ensures x in a && Abs(x - Peak(a)) == Width(a)
  {
    if Abs(Hi(a)) >= Abs(Lo(a)) then Lo(a) else Hi(a)
  }

  lemma SizeIsMaxAbs(a: Alphabet)
    ensures Size(a) == MaxAbs(a) && Expansion(a) == 108 * Size(a)
  {
    assert Bounded(a, Size(a)) by {
      forall i | 0 <= i < |a|
        ensures Abs(a[i]) <= Size(a)
      {
        assert a[i] in a;
      }
    }
    var i :| 0 <= i < |a| && a[i] == Peak(a);
    assert Abs(a[i]) <= MaxAbs(a);
  }

  ghost predicate FromAlphabet(v: seq<int>, a: Alphabet) {
    forall i :: 0 <= i < |v| ==> v[i] in a
  }

  /** x + theta(x) over the integers. */
  function Projected(x: IntRq): IntRq {
    seq(D, k requires 0 <= k < D => ProjectedAt(x, k))
  }

  function ProjectedAt(x: IntRq, k: nat): int
    requires k < D
  {
    if k == 0 then 2 * x[0] - x[27]
    else if k < 27 then x[k] - x[27 - k]
    else if k == 27 then 0
    else x[k] + x[81 - k] - x[54 - k]
  }

  lemma ProjectedReduces(x: IntRq)
    ensures RedVec(Projected(x)) == Plus(RedVec(x), Theta(RedVec(x)))
  {
    var r := RedVec(x);
    forall k | 0 <= k < D
      ensures Red(ProjectedAt(x, k)) == Add(r[k], ThetaAt(r, k))
    {
      hide Red, Add;
      if k == 0 {
        RedSum(x[0], x[0], x[27]);
      } else if k <= 27 {
        RedSum(x[k], 0, if k < 27 then x[27 - k] else x[27]);
        RedCanonical(0);
        SubFromZero(Red(if k < 27 then x[27 - k] else x[27]));
      } else {
        RedSum(x[k], x[81 - k], x[54 - k]);
      }
    }
  }

  lemma RedSum(x: int, y: int, z: int)
    ensures Red(x + y - z) == Add(Red(x), Sub(Red(y), Red(z)))
  {
    RedAdd(y, z);
    RedAdd(x, y - z);
    hide Red;
  }

  lemma SubFromZero(x: Fq)
    ensures Sub(0, x) == Neg(x)
  {}

  /** A sampled challenge: coefficients from the alphabet, projected in builds with the feature `abba`. */
  ghost predicate IsChallenge(rho: Rq, a: Alphabet, project: bool) {
    exists x: IntRq :: FromAlphabet(x, a) && rho == Sampled(x, project)
  }

  function Sampled(x: IntRq, project: bool): Rq {
    if project then Plus(RedVec(x), Theta(RedVec(x))) else RedVec(x)
  }

  function Lifted(x: IntRq, project: bool): IntRq { if project then Projected(x) else x }

  lemma SampledIsLifted(x: IntRq, project: bool)
    ensures Sampled(x, project) == RedVec(Lifted(x, project))
  {
    ProjectedReduces(x);
  }

  /** The largest row sum of the rotation of a challenge. */
  function Unit(a: Alphabet, project: bool): nat {
    if project then 53 * (Size(a) + Width(a)) else 27 * (Size(a) + Spread(a))
  }

  // ----- upper bound -----

  function Hits(j: int): nat { if j % 81 < D then 1 else 0 }

  /** Number of coefficients that meet in row i of X^t v. */
  function Weight(i: nat, t: nat): nat { Hits(i - t) + Hits(Partner(i) - t) }

  /** The weights of row i from t on. */
  function Capacity(i: nat, t: nat): int {
    Max(i + 1 - t, 0) + (if i < H then D - Max(t, i + 28) + D - Max(t, i + 1) else D - Max(t, i - 26))
  }

  lemma CapacityStep(i: nat, t: nat)
    requires i < D && t < D
    ensures Capacity(i, t) == Weight(i, t) + Capacity(i, t + 1)
    ensures 1 <= Weight(i, t) <= 2
  {}

  lemma CapacityEnds(i: nat)
    requires i < D
    ensures Capacity(i, D) == 0 && 54 <= Capacity(i, 0) <= 81
  {}

  lemma ExtBound(x: IntRq, a: Alphabet, j: int, k: int)
    requires FromAlphabet(x, a)
    ensures Abs(Ext(x, j)) <= Hits(j) * Size(a)
    ensures Hits(j) == 1 == Hits(k) ==> Abs(Ext(x, j) - Ext(x, k)) <= Width(a)
  {
    hide Size;
    if j % 81 < D {
      InAlphabet(x[j % 81], a);
    }
    if k % 81 < D {
      InAlphabet(x[k % 81], a);
    }
  }

  lemma InAlphabet(x: int, a: Alphabet)
    requires x in a
    ensures Lo(a) <= x <= Hi(a) && Abs(x) <= Size(a)
  {}

  /** A single coefficient, or the difference of two. */
  lemma RowBound(x: IntRq, a: Alphabet, t: nat, i: nat)
    requires FromAlphabet(x, a) && i < D && t < D
    ensures Abs(RowAt(x, t, i)) <= Size(a) + (Weight(i, t) - 1) * (Spread(a) - Size(a))
  {
    CapacityStep(i, t);
    ExtBound(x, a, i - t, Partner(i) - t);
    ExtBound(x, a, Partner(i) - t, i - t);
    SpreadCovers(a);
    OneOrTwo(Ext(x, i - t), Ext(x, Partner(i) - t), Hits(i - t), Hits(Partner(i) - t), Size(a), Width(a), Spread(a));
    hide Ext, Hits, Size, FromAlphabet, Capacity, Partner, Width, Spread;
  }

  lemma OneOrTwo(x: int, y: int, h: nat, k: nat, size: nat, width: nat, spread: nat)
    requires h <= 1 && k <= 1 && 1 <= h + k && size <= spread && width <= spread
    requires Abs(x) <= h * size && Abs(y) <= k * size && (h == 1 == k ==> Abs(x - y) <= width)
    ensures Abs(x - y) <= size + (h + k - 1) * (spread - size)
  {}

  lemma SpreadCovers(a: Alphabet)
    ensures Spread(a) >= Size(a) && Spread(a) >= Width(a)
  {}

  /** What row i can gain from t on, for entries of size 1. */
  function RowGain(a: Alphabet, i: nat, t: nat): int {
    Size(a) * (D - t) + (Capacity(i, t) - (D - t)) * (Spread(a) - Size(a))
  }

  lemma RowGainStep(a: Alphabet, i: nat, t: nat)
    requires i < D && t < D
    ensures RowGain(a, i, t) == Size(a) + (Weight(i, t) - 1) * (Spread(a) - Size(a)) + RowGain(a, i, t + 1)
  {
    hide *;
    CapacityStep(i, t);
    GainStep(Size(a), Spread(a) - Size(a), Weight(i, t), Capacity(i, t + 1), D - t);
    RowGainIs(a, i, t);
    RowGainIs(a, i, t + 1);
  }

  lemma RowGainIs(a: Alphabet, i: nat, t: nat)
    ensures RowGain(a, i, t) == Size(a) * (D - t) + (Capacity(i, t) - (D - t)) * (Spread(a) - Size(a))
  {}

  lemma RowGainEnds(a: Alphabet, i: nat)
    requires i < D
    ensures RowGain(a, i, D) == 0 && RowGain(a, i, 0) <= 27 * (Size(a) + Spread(a))
  {
    hide *;
    CapacityEnds(i);
    SpreadCovers(a);
    RowGainIs(a, i, 0);
    RowGainIs(a, i, D);
    FullGain(Size(a), Spread(a), Capacity(i, 0));
  }

  lemma GainStep(size: int, e: int, w: int, rest: int, n: int)
    ensures size * n + (w + rest - n) * e == size + (w - 1) * e + (size * (n - 1) + (rest - (n - 1)) * e)
  {
    var k := rest - (n - 1);
    assert w + rest - n == (w - 1) + k;
    assert ((w - 1) + k) * e == (w - 1) * e + k * e;
  }

  lemma FullGain(size: int, spread: int, capacity: int)
    requires size <= spread && capacity <= 81
    ensures size * D + (capacity - D) * (spread - size) <= 27 * (size + spread)
  {
    MulOrder(capacity - D, 27, spread - size);
  }

  /** One more term: its entry bounded by w, the others by rest. */
  lemma ReachStep(z: seq<int>, v: IntRq, t: nat, i: nat, beta: nat, w: nat, rest: int)
    requires z != [] && i < D && Bounded(z, beta) && Abs(RowAt(v, t, i)) <= w
    requires Abs(IntAct(z[1..], XPower(v, t + 1))[i]) <= rest * beta
    ensures Abs(IntAct(z, XPower(v, t))[i]) <= (w + rest) * beta
  {
    hide RowAt, IntAct;
    XPowerShift(v, t);
    ActStep(z, XPower(v, t), i);
    assert XPower(v, t)[i] == RowAt(v, t, i) && Abs(z[0]) <= beta;
    hide XPower, IntShift, Bounded;
    TermBound(z[0], RowAt(v, t, i), beta, w);
    Distribute(w, rest, beta);
  }

  lemma {:induction false} ActReach(z: seq<int>, x: IntRq, a: Alphabet, t: nat, i: nat, beta: nat)
    requires |z| + t == D && i < D && Bounded(z, beta) && FromAlphabet(x, a)
    ensures Abs(IntAct(z, XPower(x, t))[i]) <= RowGain(a, i, t) * beta
    decreases |z|
  {
    hide RowGain, RowAt, XPower, FromAlphabet, Size, Spread, Weight;
    if z == [] {
      RowGainEnds(a, i);
    } else {
      ActReach(z[1..], x, a, t + 1, i, beta);
      hide IntAct;
      RowGainStep(a, i, t);
      RowBound(x, a, t, i);
      ReachStep(z, x, t, i, beta, Size(a) + (Weight(i, t) - 1) * (Spread(a) - Size(a)), RowGain(a, i, t + 1));
    }
  }

  // ----- upper bound with the projection -----

  lemma Triple(a: Alphabet, x: int, y: int, z: int)
    requires x in a && y in a && z in a
    ensures Abs(x + y - z) <= Size(a) + Width(a)
    ensures Abs(x - z) <= Size(a) + Width(a)
  {
    assert Lo(a) <= x <= Hi(a) && Lo(a) <= y <= Hi(a) && Lo(a) <= z <= Hi(a);
  }

  lemma ProjectedCoefficient(x: IntRq, a: Alphabet, j: nat)
    requires FromAlphabet(x, a) && j < D
    ensures Abs(Projected(x)[j]) <= Size(a) + Width(a)
  {
    if j == 0 {
      Triple(a, x[0], x[0], x[27]);
    } else if j < 27 {
      Triple(a, x[j], x[j], x[27 - j]);
    } else if j > 27 {
      Triple(a, x[j], x[81 - j], x[54 - j]);
    }
  }

  lemma ProjectedPair(x: IntRq, a: Alphabet, j: nat)
    requires FromAlphabet(x, a) && j < H
    ensures Abs(Projected(x)[j] - Projected(x)[j + H]) <= Size(a) + Width(a)
  {
    if j == 0 {
      Triple(a, x[0], x[0], x[27]);
    } else {
      assert Projected(x)[j] - Projected(x)[j + H] == x[j] - x[j + 27] - x[54 - j];
      Triple(a, x[j + 27], x[54 - j], x[j]);
    }
  }

  /** Where row i meets the vanishing coefficient at X^27 alone. */
  function Hole(i: nat): int { if i < H then i + H else i - H }

  lemma ProjectedRow(x: IntRq, a: Alphabet, t: nat, i: nat)
    requires FromAlphabet(x, a) && i < D && t < D
    ensures Abs(RowAt(Projected(x), t, i)) <= if t == Hole(i) then 0 else Size(a) + Width(a)
  {
    CapacityStep(i, t);
    var v := Projected(x);
    assert v[27] == 0;
    var j, k := (i - t) % 81, (Partner(i) - t) % 81;
    PartnersMeet(i, t);
    hide Projected, Size, Width;
    if j < D && k < D {
      ProjectedPair(x, a, if j < k then j else k);
    } else if j < D {
      ProjectedCoefficient(x, a, j);
    } else {
      ProjectedCoefficient(x, a, k);
    }
  }

  lemma PartnersMeet(i: nat, t: nat)
    requires i < D && t < D
    ensures var (j, k) := ((i - t) % 81, (Partner(i) - t) % 81);
            && (j < D && k < D ==> k == j + H || j == k + H)
            && (t == Hole(i) ==> if i < H then j == D && k == H else j == H && k == D)
  {}

  function ProjectedGain(a: Alphabet, i: nat, t: nat): int {
    (Size(a) + Width(a)) * (D - t - if t <= Hole(i) then 1 else 0)
  }

  lemma {:induction false} ProjectedReach(z: seq<int>, x: IntRq, a: Alphabet, t: nat, i: nat, beta: nat)
    requires |z| + t == D && i < D && Bounded(z, beta) && FromAlphabet(x, a)
    ensures Abs(IntAct(z, XPower(Projected(x), t))[i]) <= ProjectedGain(a, i, t) * beta
    decreases |z|
  {
    hide ProjectedGain, RowAt, XPower, FromAlphabet, Size, Width, Projected;
    if z == [] {
      ProjectedGainEnds(a, i);
    } else {
      ProjectedReach(z[1..], x, a, t + 1, i, beta);
      hide IntAct;
      ProjectedGainStep(a, i, t);
      ProjectedRow(x, a, t, i);
      ReachStep(z, Projected(x), t, i, beta, if t == Hole(i) then 0 else Size(a) + Width(a), ProjectedGain(a, i, t + 1));
    }
  }

  lemma ProjectedGainEnds(a: Alphabet, i: nat)
    requires i < D
    ensures ProjectedGain(a, i, D) == 0
  {}

  lemma ProjectedGainStep(a: Alphabet, i: nat, t: nat)
    requires i < D && t < D
    ensures ProjectedGain(a, i, t) == (if t == Hole(i) then 0 else Size(a) + Width(a)) + ProjectedGain(a, i, t + 1)
  {
    hide Size, Width;
  }

  lemma Distribute(x: int, y: int, beta: int)
    ensures (x + y) * beta == beta * x + y * beta
  {}

  /** One challenge times one column. */
  lemma ColumnReach(u: seq<int>, x: IntRq, a: Alphabet, project: bool, i: nat, beta: nat)
    requires |u| == D && i < D && Bounded(u, beta) && FromAlphabet(x, a)
    ensures Abs(IntAct(u, Lifted(x, project))[i]) <= Unit(a, project) * beta
  {
    hide IntAct, XPower, Bounded, FromAlphabet, Projected;
    XPowerZero(Lifted(x, project));
    if project {
      ProjectedReach(u, x, a, 0, i, beta);
      assert ProjectedGain(a, i, 0) == Unit(a, true);
    } else {
      ActReach(u, x, a, 0, i, beta);
      RowGainEnds(a, i);
      hide RowGain, Size, Spread;
      MulOrder(RowGain(a, i, 0), Unit(a, false), beta);
    }
  }

  // ----- combinations -----

  /** What a combination of count claims reaches at most. */
  function Worst(a: Alphabet, project: bool, count: nat, beta: nat): int { count * Unit(a, project) * beta }

  lemma WorstStep(a: Alphabet, project: bool, n: nat, beta: nat)
    requires n > 0
    ensures Worst(a, project, n, beta) == Worst(a, project, n - 1, beta) + Unit(a, project) * beta
    ensures Worst(a, project, 0, beta) == 0
  {
    hide Unit;
    assert (n - 1) * Unit(a, project) + Unit(a, project) == n * Unit(a, project);
  }

  /** Admitted inputs of a combination. */
  ghost predicate Admitted(rhos: seq<Rq>, zs: seq<seq<Rq>>, m: nat, a: Alphabet, project: bool, count: nat, beta: nat) {
    && |rhos| == |zs| == count && SameLength(zs, m)
    && (forall i :: 0 <= i < |rhos| ==> IsChallenge(rhos[i], a, project))
    && forall i :: 0 <= i < |zs| ==> SmallWitness(zs[i], beta)
  }

  /** Every entry of every combination of count admitted claims is within k digits. */
  ghost predicate AlwaysSplits(a: Alphabet, project: bool, count: nat, beta: nat, b: nat, k: nat)
    requires b >= 2
  {
    forall rhos: seq<Rq>, zs: seq<seq<Rq>>, m: nat :: Admitted(rhos, zs, m, a, project, count, beta) ==>
      SmallWitness(LinComb(rhos, zs, m, count), MaxRep(b, k))
  }

  /** An integer representative of entry i of column j of the first n terms, within the bound. */
  lemma {:induction false} MixReach(rhos: seq<Rq>, zs: seq<seq<Rq>>, m: nat, a: Alphabet, project: bool, count: nat,
                                    beta: nat, j: nat, i: nat, n: nat) returns (x: int)
    requires Admitted(rhos, zs, m, a, project, count, beta) && n <= count && j < m && i < D
    ensures LinComb(rhos, zs, m, n)[j][i] == Red(x) && Abs(x) <= Worst(a, project, n, beta)
  {
    hide Red, Times, IntAct, CenteredVec, Unit, Sampled, Lifted, FromAlphabet, SmallWitness, Worst;
    if n == 0 {
      x := 0;
      RedCanonical(0);
      WorstStep(a, project, 1, beta);
    } else {
      var before := MixReach(rhos, zs, m, a, project, count, beta, j, i, n - 1);
      var term := TermReach(rhos[n - 1], zs[n - 1], a, project, beta, j, i);
      x := before + term;
      RedAdd(before, term);
      WorstStep(a, project, n, beta);
    }
  }

  lemma TermReach(rho: Rq, z: seq<Rq>, a: Alphabet, project: bool, beta: nat, j: nat, i: nat) returns (x: int)
    requires IsChallenge(rho, a, project) && SmallWitness(z, beta) && j < |z| && i < D
    ensures Times(rho, z[j])[i] == Red(x) && Abs(x) <= Unit(a, project) * beta
  {
    var u: IntRq :| FromAlphabet(u, a) && rho == Sampled(u, project);
    assert Bounded(CenteredVec(z[j]), beta);
    hide FromAlphabet, Bounded, CenteredVec, Unit, IntAct, Act, Red;
    SampledIsLifted(u, project);
    hide Sampled, Lifted;
    var v := Lifted(u, project);
    ColumnReach(CenteredVec(z[j]), u, a, project, i, beta);
    RedAct(CenteredVec(z[j]), v);
    RedCentered(z[j]);
    TimesComm(rho, z[j]);
    x := IntAct(CenteredVec(z[j]), v)[i];
    assert RedVec(IntAct(CenteredVec(z[j]), v))[i] == Red(x);
  }

  /** No combination goes beyond the reach, nor beyond half of the field. */
  lemma ReachBound(rhos: seq<Rq>, zs: seq<seq<Rq>>, m: nat, a: Alphabet, project: bool, count: nat, beta: nat, bound: nat)
    requires Admitted(rhos, zs, m, a, project, count, beta)
    requires Worst(a, project, count, beta) <= bound || HALF_Q <= bound
    ensures SmallWitness(LinComb(rhos, zs, m, count), bound)
  {
    var mix := LinComb(rhos, zs, m, count);
    forall j, i | 0 <= j < m && 0 <= i < D
      ensures Abs(CenteredVec(mix[j])[i]) <= bound
    {
      assert CenteredVec(mix[j])[i] == Centered(mix[j][i]) && Abs(Centered(mix[j][i])) <= HALF_Q;
      hide Red, LinComb, Centered, Admitted, SmallWitness, Worst;
      var x := MixReach(rhos, zs, m, a, project, count, beta, j, i, count);
      CenteredIsLeast(x);
    }
  }

  // ----- aimed witnesses -----

  /** Slots of size beta filled one after the other with y units: the first n of them hold this much. */
  function Fill(y: nat, beta: nat, n: nat): nat { if y <= beta * n then y else beta * n }

  /** What slot n holds. */
  function Slot(y: nat, beta: nat, n: nat): (u: nat)
    ensures u <= beta && Fill(y, beta, n + 1) == Fill(y, beta, n) + u
  {
    assert beta * (n + 1) == beta * n + beta;
    Fill(y, beta, n + 1) - Fill(y, beta, n)
  }

  function Signed(r: int, y: int): int { if r < 0 then -y else y }

  /** A column that collects y[t] times the size of every entry of row i. */
  function Aimed(v: IntRq, i: nat, y: seq<nat>): (z: seq<int>)
    requires |y| == D
    ensures |z| == D && forall t :: 0 <= t < D ==> z[t] == Signed(RowAt(v, t, i), y[t])
  {
    seq(D, t requires 0 <= t < D => Signed(RowAt(v, t, i), y[t]))
  }

  /** What it collects from t on. */
  function Gains(v: IntRq, i: nat, y: seq<nat>, t: nat): nat
    requires |y| == D && t <= D
    decreases D - t
  {
    if t == D then 0 else Abs(RowAt(v, t, i)) * y[t] + Gains(v, i, y, t + 1)
  }

  lemma {:induction false} AimedCollects(v: IntRq, i: nat, y: seq<nat>, t: nat)
    requires |y| == D && t <= D && i < D
    ensures IntAct(Aimed(v, i, y)[t..], XPower(v, t))[i] == Gains(v, i, y, t)
    decreases D - t
  {
    if t < D {
      AimedCollects(v, i, y, t + 1);
      XPowerShift(v, t);
      var z := Aimed(v, i, y)[t..];
      assert z[1..] == Aimed(v, i, y)[t + 1..];
      ActStep(z, XPower(v, t), i);
      assert XPower(v, t)[i] == RowAt(v, t, i);
      hide IntAct, IntShift, XPower, RowAt;
      SignedProduct(RowAt(v, t, i), y[t]);
    }
  }

  lemma SignedProduct(r: int, y: int)
    ensures Signed(r, y) * r == Abs(r) * y
  {
    if r < 0 {
      assert (-y) * r == y * (-r);
    }
  }

  /** Entries lo to hi of equal size g, fed by consecutive slots. */
  lemma {:induction false} SegmentGains(v: IntRq, i: nat, y: seq<nat>, lo: nat, hi: nat, g: nat, units: nat, beta: nat, base: nat)
    requires |y| == D && lo <= hi <= D
    requires forall t :: lo <= t < hi ==> Abs(RowAt(v, t, i)) == g && y[t] == Slot(units, beta, base + t - lo)
    ensures Gains(v, i, y, lo)
         == g * (Fill(units, beta, base + hi - lo) - Fill(units, beta, base)) + Gains(v, i, y, hi)
    decreases hi - lo
  {
    hide RowAt, Fill, Slot;
    if lo < hi {
      SegmentGains(v, i, y, lo + 1, hi, g, units, beta, base + 1);
      var f, s := Fill(units, beta, base + hi - lo), Slot(units, beta, base);
      assert g * s + g * (f - Fill(units, beta, base + 1)) == g * (s + (f - Fill(units, beta, base + 1)));
    }
  }

  /** The first n columns together. */
  function Total(v: IntRq, i: nat, ys: seq<seq<nat>>, n: nat): nat
    requires n <= |ys| && forall k :: 0 <= k < |ys| ==> |ys[k]| == D
  {
    if n == 0 then 0 else Total(v, i, ys, n - 1) + Gains(v, i, ys[n - 1], 0)
  }

  function AimedWitnesses(v: IntRq, i: nat, ys: seq<seq<nat>>): seq<seq<Rq>>
    requires forall k :: 0 <= k < |ys| ==> |ys[k]| == D
  {
    seq(|ys|, k requires 0 <= k < |ys| => [RedVec(Aimed(v, i, ys[k]))])
  }

  lemma {:induction false} MixCollects(v: IntRq, i: nat, ys: seq<seq<nat>>, rhos: seq<Rq>, n: nat)
    requires n <= |ys| == |rhos| && i < D
    requires forall k :: 0 <= k < |ys| ==> |ys[k]| == D
    requires forall k :: 0 <= k < |rhos| ==> rhos[k] == RedVec(v)
    ensures LinComb(rhos, AimedWitnesses(v, i, ys), 1, n)[0][i] == Red(Total(v, i, ys, n))
  {
    hide IntAct, Aimed, RowAt, Gains, Red, XPower, Act;
    var zs := AimedWitnesses(v, i, ys);
    if n == 0 {
      RedCanonical(0);
    } else {
      MixCollects(v, i, ys, rhos, n - 1);
      var z := Aimed(v, i, ys[n - 1]);
      AimedCollects(v, i, ys[n - 1], 0);
      assert z[0..] == z;
      XPowerZero(v);
      RedAct(z, v);
      TimesComm(rhos[n - 1], zs[n - 1][0]);
      assert RedVec(IntAct(z, v))[i] == Red(Gains(v, i, ys[n - 1], 0));
      RedAdd(Total(v, i, ys, n - 1), Gains(v, i, ys[n - 1], 0));
    }
  }

  lemma AimedIsSmall(v: IntRq, i: nat, y: seq<nat>, beta: nat)
    requires |y| == D && beta <= HALF_Q && forall t :: 0 <= t < D ==> y[t] <= beta
    ensures SmallWitness([RedVec(Aimed(v, i, y))], beta)
  {
    var z := Aimed(v, i, y);
    assert Bounded(z, beta);
    hide RowAt;
    CenteredOfReduced(z, beta);
  }

  /** All claims use the same challenge x and the aimed columns of ys. */
  lemma AimedIsAdmitted(x: IntRq, a: Alphabet, project: bool, i: nat, ys: seq<seq<nat>>, beta: nat)
    returns (rhos: seq<Rq>, zs: seq<seq<Rq>>)
    requires FromAlphabet(x, a) && i < D && beta <= HALF_Q
    requires forall k :: 0 <= k < |ys| ==> |ys[k]| == D && forall t :: 0 <= t < D ==> ys[k][t] <= beta
    ensures Admitted(rhos, zs, 1, a, project, |ys|, beta)
    ensures LinComb(rhos, zs, 1, |ys|)[0][i] == Red(Total(Lifted(x, project), i, ys, |ys|))
  {
    var v := Lifted(x, project);
    SampledIsLifted(x, project);
    rhos := seq(|ys|, k => RedVec(v));
    zs := AimedWitnesses(v, i, ys);
    assert IsChallenge(RedVec(v), a, project);
    forall k | 0 <= k < |zs|
      ensures SmallWitness(zs[k], beta)
    {
      AimedIsSmall(v, i, ys[k], beta);
    }
    hide LinComb, Red, Total, SmallWitness, IsChallenge, Lifted, Sampled;
    MixCollects(v, i, ys, rhos, |ys|);
  }

  // ----- rows that attain the bound -----

  /** Row i has entries of size g in its first part and of size h from 27 on. */
  ghost predicate TwoParts(v: IntRq, i: nat, first: nat, g: nat, h: nat) {
    && (forall t :: 0 <= t < first ==> Abs(RowAt(v, t, i)) == g)
    && forall t :: H <= t < D ==> Abs(RowAt(v, t, i)) == h
  }

  function FirstPart(project: bool): nat { if project then 26 else 27 }

  /** Size of the entries of the first part: the step between attained values. */
  function Grain(a: Alphabet, project: bool): nat { if project then Size(a) + Width(a) else Size(a) }

  function SecondGrain(a: Alphabet, project: bool): nat { if project then Size(a) + Width(a) else Spread(a) }

  lemma UnitIsTwoParts(a: Alphabet, project: bool)
    ensures Unit(a, project) == FirstPart(project) * Grain(a, project) + 27 * SecondGrain(a, project)
    ensures Grain(a, project) <= SecondGrain(a, project) <= 2 * Grain(a, project)
  {}

  /** Peak above, foot below; a constant peak where differences are too small. */
  lemma PlainRow(a: Alphabet) returns (x: IntRq, i: nat)
    ensures FromAlphabet(x, a) && i < D && TwoParts(x, i, 27, Size(a), Spread(a))
  {
    assert Peak(a) in a && Foot(a) in a;
    if Width(a) >= Size(a) {
      i := 53;
      x := seq(D, j => if j < H then Foot(a) else Peak(a));
      assert forall j :: 0 <= j < D ==> x[j] == Foot(a) || x[j] == Peak(a);
      forall t | 0 <= t < D
        ensures RowAt(x, t, 53) == if t < 27 then Peak(a) else Foot(a) - Peak(a)
      {
        HighRow(x, t);
      }
    } else {
      i := 26;
      x := seq(D, j => Peak(a));
      assert forall j :: 0 <= j < D ==> x[j] == Peak(a);
      forall t | 0 <= t < D
        ensures RowAt(x, t, 26) == if t < 27 then Peak(a) else -Peak(a)
      {
        assert (80 - t) % 81 == 80 - t && (26 - t) % 81 == if t <= 26 then 26 - t else 107 - t;
      }
    }
  }

  lemma HighRow(v: IntRq, t: nat)
    requires t < D
    ensures RowAt(v, t, 53) == if t < 27 then v[53 - t] else v[53 - t] - v[80 - t]
  {
    assert (53 - t) % 81 == 53 - t && (80 - t) % 81 == 80 - t;
  }

  lemma ProjectedRowAttains(a: Alphabet) returns (x: IntRq)
    ensures FromAlphabet(x, a) && TwoParts(Projected(x), 53, 26, Size(a) + Width(a), Size(a) + Width(a))
  {
    x := seq(D, j => if j == 0 || j > H then Peak(a) else Foot(a));
    assert Peak(a) in a && Foot(a) in a;
    assert forall j :: 0 <= j < D ==> x[j] == Foot(a) || x[j] == Peak(a);
    forall t | 0 <= t < D && t != 26
      ensures RowAt(Projected(x), t, 53) == if t < 26 || t == 53 then 2 * Peak(a) - Foot(a) else Foot(a) - 2 * Peak(a)
    {
      HighRow(Projected(x), t);
    }
  }

  lemma AttainingRow(a: Alphabet, project: bool) returns (x: IntRq, i: nat)
    ensures FromAlphabet(x, a) && i < D
    ensures TwoParts(Lifted(x, project), i, FirstPart(project), Grain(a, project), SecondGrain(a, project))
  {
    if project {
      x := ProjectedRowAttains(a);
      i := 53;
    } else {
      x, i := PlainRow(a);
    }
  }

  /** The share of claim k: y units on the first part of all claims, u on the second. */
  function Shares(first: nat, y: nat, u: nat, beta: nat, k: nat): (ys: seq<nat>)
    requires first <= H
    ensures |ys| == D && forall t :: 0 <= t < D ==> ys[t] <= beta
  {
    seq(D, t requires 0 <= t < D => ShareAt(first, y, u, beta, k, t))
  }

  function ShareAt(first: nat, y: nat, u: nat, beta: nat, k: nat, t: nat): (s: nat)
    ensures s <= beta
  {
    if t < first then Slot(y, beta, first * k + t) else if t < H then 0 else Slot(u, beta, H * k + (t - H))
  }

  lemma SharesCollect(v: IntRq, i: nat, first: nat, g: nat, h: nat, y: nat, u: nat, beta: nat, k: nat, m: nat, n: nat)
    requires first <= H <= first + 1 && TwoParts(v, i, first, g, h) && m == first * k && n == H * k
    ensures Gains(v, i, Shares(first, y, u, beta, k), 0)
         == g * (Fill(y, beta, m + first) - Fill(y, beta, m)) + h * (Fill(u, beta, n + H) - Fill(u, beta, n))
  {
    SharesAre(first, y, u, beta, k, m, n);
    hide *;
    TwoSegments(v, i, first, g, h, y, u, beta, m, n, Shares(first, y, u, beta, k));
  }

  lemma TwoSegments(v: IntRq, i: nat, first: nat, g: nat, h: nat, y: nat, u: nat, beta: nat, m: nat, n: nat, ys: seq<nat>)
    requires first <= H <= first + 1 && TwoParts(v, i, first, g, h) && |ys| == D
    requires forall t :: 0 <= t < first ==> ys[t] == Slot(y, beta, m + t)
    requires forall t :: first <= t < H ==> ys[t] == 0
    requires forall t :: H <= t < D ==> ys[t] == Slot(u, beta, n + t - H)
    ensures Gains(v, i, ys, 0)
         == g * (Fill(y, beta, m + first) - Fill(y, beta, m)) + h * (Fill(u, beta, n + H) - Fill(u, beta, n))
  {
    hide RowAt, Fill, Slot, Gains;
    SegmentGains(v, i, ys, H, D, h, u, beta, n);
    SegmentGains(v, i, ys, 0, first, g, y, beta, m);
    SkipHole(v, i, ys, first);
    GainsEnd(v, i, ys);
  }

  lemma SharesAre(first: nat, y: nat, u: nat, beta: nat, k: nat, m: nat, n: nat)
    requires first <= H && m == first * k && n == H * k
    ensures var ys := Shares(first, y, u, beta, k);
            && (forall t :: 0 <= t < first ==> ys[t] == Slot(y, beta, m + t))
            && (forall t :: first <= t < H ==> ys[t] == 0)
            && forall t :: H <= t < D ==> ys[t] == Slot(u, beta, n + t - H)
  {
    hide Slot;
    var ys := Shares(first, y, u, beta, k);
    assert forall t :: 0 <= t < D ==> ys[t] == ShareAt(first, y, u, beta, k, t);
  }

  lemma SkipHole(v: IntRq, i: nat, ys: seq<nat>, first: nat)
    requires |ys| == D && first <= H <= first + 1 && forall t :: first <= t < H ==> ys[t] == 0
    ensures Gains(v, i, ys, first) == Gains(v, i, ys, H)
  {
    hide RowAt;
    if first < H {
      assert Abs(RowAt(v, first, i)) * 0 == 0;
    }
  }

  lemma GainsEnd(v: IntRq, i: nat, ys: seq<nat>)
    requires |ys| == D
    ensures Gains(v, i, ys, D) == 0
  {}

  lemma {:induction false} AllSharesCollect(v: IntRq, i: nat, first: nat, g: nat, h: nat, y: nat, u: nat, beta: nat,
                                            ys: seq<seq<nat>>, n: nat)
    requires first <= H <= first + 1 && TwoParts(v, i, first, g, h) && n <= |ys|
    requires forall k :: 0 <= k < |ys| ==> |ys[k]| == D && ys[k] == Shares(first, y, u, beta, k)
    ensures Total(v, i, ys, n) == g * Fill(y, beta, first * n) + h * Fill(u, beta, H * n)
  {
    hide TwoParts, Shares, Gains;
    if n == 0 {
      assert first * 0 == 0 && beta * 0 == 0;
      assert Fill(y, beta, 0) == 0 && Fill(u, beta, 0) == 0;
    } else {
      AllSharesCollect(v, i, first, g, h, y, u, beta, ys, n - 1);
      SharesCollect(v, i, first, g, h, y, u, beta, n - 1, first * (n - 1), H * (n - 1));
      assert first * n == first * (n - 1) + first;
      hide Fill;
      Telescope(g, Fill(y, beta, first * (n - 1)), Fill(y, beta, first * n));
      Telescope(h, Fill(u, beta, H * (n - 1)), Fill(u, beta, H * n));
    }
  }

  lemma Telescope(g: int, x: int, y: int)
    ensures g * x + g * (y - x) == g * y
  {}

  /** Every y steps of the first grain and u of the second are an entry of some combination. */
  lemma ReachAttained(a: Alphabet, project: bool, count: nat, beta: nat, y: nat, u: nat)
    returns (rhos: seq<Rq>, zs: seq<seq<Rq>>, i: nat)
    requires beta <= HALF_Q && y <= beta * (FirstPart(project) * count) && u <= beta * (27 * count)
    ensures Admitted(rhos, zs, 1, a, project, count, beta) && i < D
    ensures LinComb(rhos, zs, 1, count)[0][i] == Red(Grain(a, project) * y + SecondGrain(a, project) * u)
  {
    hide RowAt, Fill, Slot, Unit, IsChallenge, SmallWitness, Total;
    var x;
    x, i := AttainingRow(a, project);
    var first := FirstPart(project);
    var ys := seq(count, k requires 0 <= k => Shares(first, y, u, beta, k));
    rhos, zs := AimedIsAdmitted(x, a, project, i, ys, beta);
    hide LinComb, Red, Admitted, Lifted, Shares, TwoParts, FromAlphabet, Grain, SecondGrain;
    AllSharesCollect(Lifted(x, project), i, first, Grain(a, project), SecondGrain(a, project), y, u, beta, ys, count);
    FillsUp(y, beta, first * count);
    FillsUp(u, beta, H * count);
  }

  lemma FillsUp(y: nat, beta: nat, n: nat)
    requires y <= beta * n
    ensures Fill(y, beta, n) == y
  {}

  // ----- when every combination splits -----

  /**
   The exact condition: all combinations split if and only if their reach, or half of the field, is
   within the digits.  Beyond half of the field values wrap, and the digits must stay half a grain away.
   */
  lemma SplitsExactly(a: Alphabet, project: bool, count: nat, beta: nat, b: nat, k: nat)
    requires b >= 2 && beta <= HALF_Q
    requires Worst(a, project, count, beta) <= HALF_Q || HALF_Q <= MaxRep(b, k)
          || Grain(a, project) <= 2 * (HALF_Q - MaxRep(b, k))
    ensures AlwaysSplits(a, project, count, beta, b, k)
       <==> Worst(a, project, count, beta) <= MaxRep(b, k) || HALF_Q <= MaxRep(b, k)
  {
    var r := MaxRep(b, k);
    if Worst(a, project, count, beta) <= r || HALF_Q <= r {
      forall rhos: seq<Rq>, zs: seq<seq<Rq>>, m: nat | Admitted(rhos, zs, m, a, project, count, beta)
        ensures SmallWitness(LinComb(rhos, zs, m, count), r)
      {
        ReachBound(rhos, zs, m, a, project, count, beta, r);
      }
    } else {
      hide MaxRep, LinComb, SmallWitness, Admitted, Grain;
      var rhos, zs := ReachBeyond(a, project, count, beta, r);
    }
  }

  /** A combination with an entry beyond r. */
  lemma ReachBeyond(a: Alphabet, project: bool, count: nat, beta: nat, r: nat) returns (rhos: seq<Rq>, zs: seq<seq<Rq>>)
    requires beta <= HALF_Q && r < Worst(a, project, count, beta) && r < HALF_Q
    requires Worst(a, project, count, beta) <= HALF_Q || Grain(a, project) <= 2 * (HALF_Q - r)
    ensures Admitted(rhos, zs, 1, a, project, count, beta) && !SmallWitness(LinComb(rhos, zs, 1, count), r)
  {
    var g, h := Grain(a, project), SecondGrain(a, project);
    WorstIs(a, project, count, beta);
    hide LinComb, SmallWitness, Admitted, Grain, SecondGrain, Unit, Red, Worst;
    var y, u := FirstBeyond(r, FirstPart(project), g, h, beta, count);
    var i;
    rhos, zs, i := ReachAttained(a, project, count, beta, y, u);
    MixHasOneColumn(rhos, zs, a, project, count, beta);
    var mix := LinComb(rhos, zs, 1, count);
    hide *;
    EntryBeyond(mix, i, g * y + h * u, r);
  }

  lemma WorstIs(a: Alphabet, project: bool, count: nat, beta: nat)
    ensures var (g, h) := (Grain(a, project), SecondGrain(a, project));
            && Worst(a, project, count, beta) == count * (FirstPart(project) * g + 27 * h) * beta
            && 26 <= FirstPart(project) && g <= h <= 2 * g
  {
    UnitIsTwoParts(a, project);
    hide Unit, Grain, SecondGrain;
  }

  lemma MixHasOneColumn(rhos: seq<Rq>, zs: seq<seq<Rq>>, a: Alphabet, project: bool, count: nat, beta: nat)
    requires Admitted(rhos, zs, 1, a, project, count, beta)
    ensures |rhos| == |zs| == count && SameLength(zs, 1) && |LinComb(rhos, zs, 1, count)| == 1
  {}

  /** The largest steps first: the first attained value beyond r is at most one grain away. */
  lemma FirstBeyond(r: nat, first: nat, g: nat, h: nat, beta: nat, count: nat) returns (y: nat, u: nat)
    requires 26 <= first && g <= h <= 2 * g && r < count * (first * g + 27 * h) * beta
    ensures y <= beta * (first * count) && u <= beta * (27 * count)
    ensures r < g * y + h * u <= r + g && g * y + h * u <= count * (first * g + 27 * h) * beta
  {
    var s, t := beta * (first * count), beta * (27 * count);
    WorstSplits(count, first, g, h, beta);
    assert s >= 2 by { PartsAreWide(first, g, h, beta, count); }
    y, u := StepsBeyond(r, g, h, s, t);
  }

  lemma WorstSplits(count: nat, first: nat, g: nat, h: nat, beta: nat)
    ensures count * (first * g + 27 * h) * beta == g * (beta * (first * count)) + h * (beta * (27 * count))
  {
    var x := count * beta;
    assert count * (first * g + 27 * h) * beta == (first * g + 27 * h) * x;
    assert g * (beta * (first * count)) == first * g * x && h * (beta * (27 * count)) == 27 * h * x;
  }

  lemma PartsAreWide(first: nat, g: nat, h: nat, beta: nat, count: nat)
    requires 26 <= first && 0 < count * (first * g + 27 * h) * beta
    ensures beta * (first * count) >= 2
  {
    assert count > 0 && beta > 0;
    MulOrder(1, count, first);
    MulOrder(1, beta, first * count);
    assert count * first == first * count;
  }

  lemma StepsBeyond(r: nat, g: nat, h: nat, s: nat, t: nat) returns (y: nat, u: nat)
    requires g <= h <= 2 * g && r < g * s + h * t && s >= 2
    ensures y <= s && u <= t && r < g * y + h * u <= r + g && g * y + h * u <= g * s + h * t
  {
    SomeGrain(g, h, s, t);
    u := SecondSteps(r + 1, h, t);
    y := FirstSteps(r + 1 - h * u, g, if u == t then s else 2);
    MulOrder(y, s, g);
    MulOrder(u, t, h);
  }

  lemma SomeGrain(g: nat, h: nat, s: nat, t: nat)
    requires g <= h <= 2 * g && 0 < g * s + h * t
    ensures g > 0
  {}

  lemma SecondSteps(x: nat, h: nat, t: nat) returns (u: nat)
    requires h > 0
    ensures u <= t && h * u <= x && (u < t ==> x < h * u + h)
  {
    u := if x / h <= t then x / h else t;
    QuotientFits(x, h, t, u);
  }

  lemma FirstSteps(x: nat, g: nat, s: nat) returns (y: nat)
    requires g > 0 && x <= g * s
    ensures y <= s && x <= g * y < x + g
  {
    y := (x + g - 1) / g;
    CeilingFits(x, g, y);
    StepsFit(x, g, y, s);
  }

  lemma QuotientFits(x: nat, h: nat, t: nat, u: nat)
    requires h > 0 && u == if x / h <= t then x / h else t
    ensures h * u <= x && (u < t ==> x < h * u + h)
  {
    assert x / h * h <= x < x / h * h + h;
    MulOrder(u, x / h, h);
  }

  lemma CeilingFits(x: nat, g: nat, y: nat)
    requires g > 0 && y == (x + g - 1) / g
    ensures x <= g * y < x + g
  {
    assert y * g <= x + g - 1 < y * g + g;
  }

  lemma StepsFit(x: nat, g: nat, y: nat, s: nat)
    requires g > 0 && g * y < x + g && x <= g * s
    ensures y <= s
  {
    if y > s {
      MulOrder(s, y, g);
    }
  }

  lemma EntryBeyond(mix: seq<Rq>, i: nat, x: int, r: nat)
    requires |mix| == 1 && i < D && mix[0][i] == Red(x) && r < x < Q - r
    ensures !SmallWitness(mix, r)
  {
    assert CenteredVec(mix[0])[i] == Centered(Red(x));
  }

  /** The alphabet of the code. */
  const FIVE: Alphabet := [-2, -1, 0, 1, 2]

  lemma FiveIs()
    ensures Size(FIVE) == 2 && Width(FIVE) == 4 && Expansion(FIVE) == 216
    ensures Unit(FIVE, false) == 162 && Unit(FIVE, true) == 318
  {
    hide Lo, Hi, MaxAbs;
    assert -2 in FIVE && 2 in FIVE && forall y :: y in FIVE ==> -2 <= y <= 2;
    SizeIsMaxAbs(FIVE);
  }
}
