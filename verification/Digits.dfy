/** Balanced base-b digits: the DEC split and the exact range on which it succeeds. */
module Digits {
  import opened Arithmetic
  import opened Field

  // ----- machine division -----

  /** Rust `/` on signed integers: truncation towards zero. */
  function TruncDiv(a: int, b: int): int
    requires b > 0
  {
    if a >= 0 then a / b else -((-a) / b)
  }

  /** Rust `%` on signed integers. */
  function TruncRem(a: int, b: int): int
    requires b > 0
  {
    if a >= 0 then a % b else -((-a) % b)
  }

  function Abs(x: int): nat { if x < 0 then -x else x }

  /** `balanced_divrem`: (digit, quotient). */
  function BalancedDivRem(v: int, b: int): (int, int)
    requires b >= 2
  {
    var r := TruncRem(v, b);
    var q := TruncDiv(v - r, b);
    var half := b / 2;
    if r > half then (r - b, q + 1)
    else if r < -half then (r + b, q - 1)
    else (r, q)
  }

  /** `balanced_divrem_i64_base2`; `>> 1` is the floor of the half. */
  function BalancedDivRemBase2(v: int): (int, int) {
    if v % 2 == 0 then (0, v / 2)
    else if v > 0 then (1, (v - 1) / 2)
    else (-1, (v + 1) / 2)
  }

  function DigitStep(v: int, b: int): int
    requires b >= 2
  {
    BalancedDivRem(v, b).0
  }

  function Quotient(v: int, b: int): int
    requires b >= 2
  {
    BalancedDivRem(v, b).1
  }

  /** The balanced-digit rule as a relation: smallest residue, ties to the sign of the value. */
  ghost predicate IsBalancedStep(v: int, b: int, r: int, q: int) {
    && v == q * b + r
    && 2 * Abs(r) <= b
    && (2 * Abs(r) == b ==> (r > 0 <==> v > 0))
  }

  lemma TruncSplit(v: int, b: int)
    requires b > 0
    ensures v == TruncDiv(v, b) * b + TruncRem(v, b)
    ensures v >= 0 ==> 0 <= TruncRem(v, b) < b
    ensures v <= 0 ==> -b < TruncRem(v, b) <= 0
    ensures TruncDiv(v - TruncRem(v, b), b) == TruncDiv(v, b)
  {
    var w := Abs(v);
    assert w == (w / b) * b + w % b;
    ExactDivision(w / b, b);
    if v < 0 {
      assert (-(w / b)) * b == -((w / b) * b);
    }
  }

  lemma ExactDivision(q: nat, b: int)
    requires b > 0
    ensures q * b >= 0 && (q * b) / b == q
  {
    var d, e := (q * b) / b, (q * b) % b;
    assert q * b == d * b + e;
    MulOrder(d, q, b);
    MulOrder(q, d, b);
  }

  lemma BalancedStepHolds(v: int, b: int)
    requires b >= 2
    ensures IsBalancedStep(v, b, DigitStep(v, b), Quotient(v, b))
  {
    TruncSplit(v, b);
    NextMultiples(TruncDiv(v, b), b);
    hide TruncDiv, TruncRem;
  }

  lemma NextMultiples(q: int, b: int)
    ensures (q + 1) * b == q * b + b && (q - 1) * b == q * b - b
  {}

  lemma BalancedStepUnique(v: int, b: int, r: int, q: int)
    requires b >= 2 && IsBalancedStep(v, b, r, q)
    ensures BalancedDivRem(v, b) == (r, q)
  {
    BalancedStepHolds(v, b);
    var r', q' := DigitStep(v, b), Quotient(v, b);
    MulOrder(q, q', b);
    MulOrder(q', q, b);
    if q < q' {
      assert false;
    } else if q' < q {
      assert false;
    }
  }

  lemma Base2Agrees(v: int)
    ensures BalancedDivRemBase2(v) == BalancedDivRem(v, 2)
  {
    var (r, q) := BalancedDivRemBase2(v);
    BalancedStepUnique(v, 2, r, q);
  }

  /** Quotients shrink, so the i64 and i128 paths compute the same values without overflow. */
  lemma QuotientShrinks(v: int, b: int)
    requires b >= 2
    ensures Abs(Quotient(v, b)) <= Abs(v)
    ensures Abs(v - TruncRem(v, b)) <= Abs(v)
    ensures v == 0 ==> BalancedDivRem(v, b) == (0, 0)
  {
    TruncSplit(v, b);
    BalancedStepHolds(v, b);
    StepShrinks(v, b, DigitStep(v, b), Quotient(v, b));
    hide BalancedDivRem, DigitStep, Quotient, TruncDiv, TruncRem;
    RemainderShrinks(v, b, TruncRem(v, b), TruncDiv(v, b));
    if v == 0 {
      BalancedStepUnique(0, b, 0, 0);
    }
  }

  lemma StepShrinks(v: int, b: int, r: int, q: int)
    requires b >= 2 && IsBalancedStep(v, b, r, q)
    ensures Abs(q) <= Abs(v)
  {
    assert q * b == q * (b - 1) + q;
    if q > 0 {
      MulOrder(1, q, b - 1);
    } else if q < 0 {
      MulOrder(q, -1, b - 1);
    }
  }

  lemma RemainderShrinks(v: int, b: int, r: int, q: int)
    requires v == q * b + r && b > 0
    requires v >= 0 ==> 0 <= r < b
    requires v <= 0 ==> -b < r <= 0
    ensures Abs(v - r) <= Abs(v)
  {
    MulOrder(0, q, b);
    MulOrder(q, 0, b);
    MulOrder(q, -1, b);
    MulOrder(1, q, b);
  }

  // ----- k digits -----

  function Pow(b: int, k: nat): int {
    if k == 0 then 1 else b * Pow(b, k - 1)
  }

  /** What is left after k digits. */
  function Rest(v: int, b: int, k: nat): int
    requires b >= 2
    decreases k
  {
    if k == 0 then v else Rest(Quotient(v, b), b, k - 1)
  }

  /** Digit i. */
  function Digit(v: int, b: int, i: nat): int
    requires b >= 2
    decreases i
  {
    if i == 0 then DigitStep(v, b) else Digit(Quotient(v, b), b, i - 1)
  }

  /** The sum of b^i * digit i over i < k. */
  function DigitSum(v: int, b: int, k: nat): int
    requires b >= 2
    decreases k
  {
    if k == 0 then 0 else DigitStep(v, b) + b * DigitSum(Quotient(v, b), b, k - 1)
  }

  lemma {:induction false} SplitKeepsValue(v: int, b: int, k: nat)
    requires b >= 2
    ensures v == DigitSum(v, b, k) + Pow(b, k) * Rest(v, b, k)
    decreases k
  {
    hide DigitStep, Quotient;
    if k != 0 {
      var q := Quotient(v, b);
      SplitKeepsValue(q, b, k - 1);
      assert v == q * b + DigitStep(v, b) by { BalancedStepHolds(v, b); }
      SplitStep(b, q, DigitSum(q, b, k - 1), Pow(b, k - 1), Rest(q, b, k - 1));
    }
  }

  lemma SplitStep(b: int, q: int, s: int, p: int, rest: int)
    requires q == s + p * rest
    ensures q * b == b * s + b * p * rest
  {
    assert b * (p * rest) == b * p * rest;
    assert b * (s + p * rest) == b * s + b * (p * rest);
  }

  lemma {:induction false} DigitsBounded(v: int, b: int, i: nat)
    requires b >= 2
    ensures Abs(Digit(v, b, i)) <= b / 2
    decreases i
  {
    if i == 0 {
      BalancedStepHolds(v, b);
    } else {
      DigitsBounded(Quotient(v, b), b, i - 1);
    }
    hide DigitStep, Quotient;
  }

  /** Largest magnitude that k balanced digits reach. */
  function MaxRep(b: int, k: nat): nat
    requires b >= 2
    decreases k
  {
    if k == 0 then 0 else b / 2 + b * MaxRep(b, k - 1)
  }

  lemma {:induction false} MaxRepClosedForm(b: int, k: nat)
    requires b >= 2
    ensures (b - 1) * MaxRep(b, k) == (b / 2) * (Pow(b, k) - 1)
    ensures MaxRep(b, k) < Pow(b, k)
    decreases k
  {
    if k != 0 {
      MaxRepClosedForm(b, k - 1);
      ClosedFormStep(b, MaxRep(b, k - 1), Pow(b, k - 1), b / 2);
      MulOrder(MaxRep(b, k - 1), Pow(b, k - 1), b);
    }
  }

  lemma ClosedFormStep(b: int, m: int, p: int, h: int)
    requires (b - 1) * m == h * (p - 1)
    ensures (b - 1) * (h + b * m) == h * (b * p - 1)
  {
    calc {
      (b - 1) * (h + b * m);
      (b - 1) * h + (b - 1) * (b * m);
      { assert (b - 1) * (b * m) == b * ((b - 1) * m); }
      (b - 1) * h + b * ((b - 1) * m);
      (b - 1) * h + b * (h * (p - 1));
      { assert b * (h * (p - 1)) == h * (b * (p - 1)); }
      (b - 1) * h + h * (b * (p - 1));
      h * (b - 1 + b * (p - 1));
      { assert b * (p - 1) == b * p - b; }
      h * (b * p - 1);
    }
  }

  lemma OneDigitStep(v: int, b: int, m: int)
    requires b >= 2 && m >= 0
    ensures Abs(v) <= b / 2 + b * m <==> Abs(Quotient(v, b)) <= m
  {
    BalancedStepHolds(v, b);
    var q, r := Quotient(v, b), DigitStep(v, b);
    hide DigitStep, Quotient;
    var x, y := q * b, m * b;
    assert b * m == y;
    assert q <= m ==> x <= y by { MulOrder(q, m, b); }
    assert q > m ==> x >= y + b by { MulOrder(m, q, b); }
    assert q >= -m ==> x >= -y by { MulOrder(-m, q, b); assert (-m) * b == -y; }
    assert q < -m ==> x + b <= -y by { MulOrder(q, -m, b); assert (-m) * b == -y; }
    NearMultiple(v, b, q, m, r, x, y);
  }

  lemma NearMultiple(v: int, b: int, q: int, m: int, r: int, x: int, y: int)
    requires b >= 2 && m >= 0 && y >= 0 && v == x + r
    requires 2 * Abs(r) <= b && (2 * Abs(r) == b ==> (r > 0 <==> v > 0))
    requires q <= m ==> x <= y
    requires q > m ==> x >= y + b
    requires q >= -m ==> x >= -y
    requires q < -m ==> x + b <= -y
    ensures Abs(v) <= b / 2 + y <==> Abs(q) <= m
  {}

  /** The split succeeds exactly on the magnitudes up to `MaxRep`. */
  lemma {:induction false} SplitSucceedsExactly(v: int, b: int, k: nat)
    requires b >= 2
    ensures Rest(v, b, k) == 0 <==> Abs(v) <= MaxRep(b, k)
    decreases k
  {
    hide Quotient;
    if k != 0 {
      SplitSucceedsExactly(Quotient(v, b), b, k - 1);
      OneDigitStep(v, b, MaxRep(b, k - 1));
    }
  }

  // ----- from the field and back -----

  const HALF_Q: int := (Q - 1) / 2

  /** `to_balanced_i128`: the representative of least magnitude. */
  function Centered(u: Fq): int { if u <= HALF_Q then u else u - Q }

  /** Signed small integer to field element. */
  function ToField(x: int): Fq
    requires Abs(x) < Q
  {
    if x >= 0 then x else Sub(0, -x)
  }

  lemma ToFieldIsRed(x: int)
    requires Abs(x) < Q
    ensures ToField(x) == Red(x)
  {
    RedUnique(x, if x >= 0 then 0 else -1, ToField(x));
  }

  lemma CenteredOfSmall(x: int)
    requires Abs(x) <= HALF_Q
    ensures Centered(Red(x)) == x
  {
    RedUnique(x, if x >= 0 then 0 else -1, if x >= 0 then x else x + Q);
  }

  lemma RedOfCentered(u: Fq)
    ensures Red(Centered(u)) == u
    ensures Abs(Centered(u)) <= HALF_Q
  {
    RedUnique(Centered(u), if u <= HALF_Q then 0 else -1, u);
  }

  lemma {:induction false} DigitOfRest(v: int, b: int, i: nat, j: nat)
    requires b >= 2
    ensures Digit(v, b, i + j) == Digit(Rest(v, b, i), b, j)
    ensures Rest(v, b, i + j) == Rest(Rest(v, b, i), b, j)
    decreases i
  {
    hide DigitStep, Quotient;
    if i != 0 {
      DigitOfRest(Quotient(v, b), b, i - 1, j);
    }
  }

  lemma {:induction false} ZeroDigits(b: int, i: nat)
    requires b >= 2
    ensures Digit(0, b, i) == 0 && Rest(0, b, i) == 0
    decreases i
  {
    QuotientShrinks(0, b);
    if i != 0 {
      ZeroDigits(b, i - 1);
    }
  }

  // ----- the DEC split -----

  const I128_MAX: int := 0x7FFF_FFFF_FFFF_FFFF_FFFF_FFFF_FFFF_FFFF

  /** Result of `split_b_matrix_k_with_nonzero_flags` on the entries in row-major order. */
  datatype SplitResult =
    | Split(digits: seq<seq<Fq>>, nonzero: seq<bool>)
    | OutOfRange(idx: nat)
    | TooManyDigits(idx: nat, rest: int)

  /** b^k, saturating like the i128 arithmetic of the code. */
  method SaturatingPower(b: int, k: nat) returns (p: int)
    requires b >= 2
    ensures p == if Pow(b, k) < I128_MAX then Pow(b, k) else I128_MAX
  {
    p := 1;
    for i := 0 to k
      invariant p == if Pow(b, i) < I128_MAX then Pow(b, i) else I128_MAX
    {
      MulOrder(I128_MAX, Pow(b, i), b);
      PowPositive(b, i);
      assert b * Pow(b, i) == Pow(b, i) * b;
      p := if p * b < I128_MAX then p * b else I128_MAX;
    }
  }

  lemma {:induction false} PowPositive(b: int, k: nat)
    requires b >= 1
    ensures Pow(b, k) >= 1
  {
    if k != 0 {
      PowPositive(b, k - 1);
      MulOrder(1, Pow(b, k - 1), b);
    }
  }

  /** `build_balanced_digit_lut`: field forms of -half..half. */
  method DigitTable(b: nat) returns (half: int, lut: seq<Fq>)
    requires 2 <= b < 0x1_0000_0000
    ensures half == b / 2 && |lut| == 2 * half + 1
    ensures forall d :: -half <= d <= half ==> lut[d + half] == Red(d)
  {
    half := b / 2;
    lut := [];
    for d := -half to half + 1
      invariant |lut| == d + half
      invariant forall e :: -half <= e < d ==> lut[e + half] == Red(e)
    {
      ToFieldIsRed(d);
      lut := lut + [ToField(d)];
    }
  }

  /** The signed value of a nonzero entry if it fits the budget, as the code selects it. */
  method BudgetValue(u: Fq, bound: int) returns (v: int, ok: bool)
    requires u != 0
    ensures v == Centered(u)
    ensures ok <==> Abs(Centered(u)) < bound
  {
    var negMag := Q - u;
    var posOk, negOk := u < bound, negMag < bound;
    v, ok := Centered(u), false;
    if posOk && negOk {
      v, ok := if u <= negMag then u else -negMag, true;
    } else if posOk {
      v, ok := u, true;
    } else if negOk {
      v, ok := -negMag, true;
    }
  }

  /** The digit loop on one entry: stops at zero, writes nonzero digits and raises their flags. */
  method WriteDigits(outs: array2<Fq>, nonzero: array<bool>, idx: nat, c: int, b: nat, half: int, lut: seq<Fq>)
    returns (v: int)
    requires outs.Length0 == nonzero.Length && idx < outs.Length1
    requires b >= 2 && half == b / 2 && |lut| == 2 * half + 1
    requires forall d :: -half <= d <= half ==> lut[d + half] == Red(d)
    requires forall i :: 0 <= i < outs.Length0 ==> outs[i, idx] == 0
    modifies outs, nonzero
    ensures v == Rest(c, b, outs.Length0)
    ensures forall i, j :: 0 <= i < outs.Length0 && 0 <= j < outs.Length1 ==>
      outs[i, j] == if j == idx then Red(Digit(c, b, i)) else old(outs[i, j])
    ensures forall i :: 0 <= i < nonzero.Length ==>
      (nonzero[i] <==> old(nonzero[i]) || Digit(c, b, i) != 0)
  {
    hide BalancedDivRem, Red;
    var k := outs.Length0;
    v := c;
    var i := 0;
    RedCanonical(0);
    while i < k && v != 0
      invariant 0 <= i <= k
      invariant v == Rest(c, b, i)
      invariant forall n, j :: 0 <= n < k && 0 <= j < outs.Length1 ==>
        outs[n, j] == if j == idx && n < i then Red(Digit(c, b, n)) else old(outs[n, j])
      invariant forall n :: 0 <= n < k ==>
        (nonzero[n] <==> old(nonzero[n]) || (n < i && Digit(c, b, n) != 0))
    {
      var (r, q) := if b == 2 then BalancedDivRemBase2(v) else BalancedDivRem(v, b);
      if b == 2 {
        Base2Agrees(v);
      }
      DigitOfRest(c, b, i, 0);
      DigitOfRest(c, b, i, 1);
      DigitsBounded(v, b, 0);
      assert r == Digit(c, b, i) && q == Rest(c, b, i + 1);
      if r != 0 {
        outs[i, idx] := lut[r + half];
        nonzero[i] := true;
      }
      v := q;
      i := i + 1;
    }
    if v == 0 {
      forall n | i <= n <= k
        ensures Digit(c, b, n) == 0 && Rest(c, b, n) == 0
      {
        DigitOfRest(c, b, i, n - i);
        ZeroDigits(b, n - i);
      }
    }
  }

  /** `split_b_matrix_k_with_nonzero_flags`: exact success condition, digits, flags and first failing entry. */
  method SplitB(z: seq<Fq>, k: nat, b: nat) returns (r: SplitResult)
    requires 2 <= b < 0x1_0000_0000
    ensures r.Split? <==> forall j :: 0 <= j < |z| ==> Abs(Centered(z[j])) <= MaxRep(b, k)
    ensures r.Split? ==> |r.digits| == |r.nonzero| == k
    ensures r.Split? ==> forall i :: 0 <= i < k ==> |r.digits[i]| == |z|
    ensures r.Split? ==> forall i, j :: 0 <= i < k && 0 <= j < |z| ==> r.digits[i][j] == Red(Digit(Centered(z[j]), b, i))
    ensures r.Split? ==> forall i :: 0 <= i < k ==>
      (r.nonzero[i] <==> exists j :: 0 <= j < |z| && Digit(Centered(z[j]), b, i) != 0)
    ensures !r.Split? ==> r.idx < |z| && Abs(Centered(z[r.idx])) > MaxRep(b, k)
    ensures !r.Split? ==> forall j :: 0 <= j < r.idx ==> Abs(Centered(z[j])) <= MaxRep(b, k)
    ensures r.OutOfRange? ==> Abs(Centered(z[r.idx])) >= Pow(b, k)
    ensures r.TooManyDigits? ==> Abs(Centered(z[r.idx])) < Pow(b, k) && r.rest == Rest(Centered(z[r.idx]), b, k)
  {
    hide BalancedDivRem, Red;
    var total := |z|;
    var outs := new Fq[k, total]((i, j) => 0);
    var nonzero := new bool[k](i => false);
    var bound := SaturatingPower(b, k);
    var half, lut := DigitTable(b);
    MaxRepClosedForm(b, k);
    RedCanonical(0);
    for idx := 0 to total
      invariant forall j :: 0 <= j < idx ==> Abs(Centered(z[j])) <= MaxRep(b, k)
      invariant forall i, j :: 0 <= i < k && 0 <= j < total ==>
        outs[i, j] == if j < idx then Red(Digit(Centered(z[j]), b, i)) else 0
      invariant forall i :: 0 <= i < k ==>
        (nonzero[i] <==> exists j :: 0 <= j < idx && Digit(Centered(z[j]), b, i) != 0)
    {
      if z[idx] == 0 {
        forall i | 0 <= i < k
          ensures Digit(Centered(z[idx]), b, i) == 0
        {
          ZeroDigits(b, i);
        }
        continue;
      }
      var c, ok := BudgetValue(z[idx], bound);
      RedOfCentered(z[idx]);
      if !ok {
        return OutOfRange(idx);
      }
      var v := WriteDigits(outs, nonzero, idx, c, b, half, lut);
      SplitSucceedsExactly(c, b, k);
      if v != 0 {
        return TooManyDigits(idx, v);
      }
    }
    var digits := seq(k, i requires 0 <= i < k reads outs =>
      seq(total, j requires 0 <= j < total reads outs => outs[i, j]));
    r := Split(digits, nonzero[..]);
  }

  // ----- exactly D digits -----

  const FIXED_DIGITS: nat := 54

  /** `is_representable_balanced_fixed_d_digits`: stops as soon as nothing is left. */
  method IsRepresentable(u: Fq, b: int) returns (ok: bool)
    requires b >= 2
    ensures ok <==> Abs(Centered(u)) <= MaxRep(b, FIXED_DIGITS)
  {
    hide BalancedDivRem, MaxRep;
    SplitSucceedsExactly(Centered(u), b, FIXED_DIGITS);
    var rem := Centered(u);
    for i := 0 to FIXED_DIGITS
      invariant rem == Rest(Centered(u), b, i)
    {
      if rem == 0 {
        DigitOfRest(Centered(u), b, i, FIXED_DIGITS - i);
        ZeroDigits(b, FIXED_DIGITS - i);
        return true;
      }
      DigitOfRest(Centered(u), b, i, 1);
      rem := BalancedDivRem(rem, b).1;
    }
    ok := rem == 0;
  }

  datatype FixedDigits = FixedDigits(digits: seq<Fq>) | NotRepresentable

  /** `decompose_balanced_fixed_d_digits_k` on the base field. */
  method DecomposeFixed(u: Fq, b: int) returns (r: FixedDigits)
    requires 2 <= b < 0x1_0000_0000
    ensures r.FixedDigits? <==> Abs(Centered(u)) <= MaxRep(b, FIXED_DIGITS)
    ensures r.FixedDigits? ==> |r.digits| == FIXED_DIGITS
    ensures r.FixedDigits? ==> forall i :: 0 <= i < FIXED_DIGITS ==> r.digits[i] == Red(Digit(Centered(u), b, i))
    ensures r.FixedDigits? ==> Centered(u) == DigitSum(Centered(u), b, FIXED_DIGITS)
  {
    hide BalancedDivRem, BalancedDivRemBase2, MaxRep, Red, Centered, DigitSum;
    var v := Centered(u);
    SplitSucceedsExactly(v, b, FIXED_DIGITS);
    SplitKeepsValue(v, b, FIXED_DIGITS);
    var rem := v;
    var digits: seq<Fq> := [];
    for i := 0 to FIXED_DIGITS
      invariant rem == Rest(v, b, i) && |digits| == i
      invariant forall k :: 0 <= k < i ==> digits[k] == Red(Digit(v, b, k))
    {
      DigitOfRest(v, b, i, 0);
      DigitOfRest(v, b, i, 1);
      DigitsBounded(v, b, i);
      if b == 2 {
        Base2Agrees(rem);
      }
      var (d, q) := if b == 2 then BalancedDivRemBase2(rem) else BalancedDivRem(rem, b);
      ToFieldIsRed(d);
      digits := digits + [ToField(d)];
      rem := q;
    }
    r := if rem == 0 then FixedDigits(digits) else NotRepresentable;
  }
}
