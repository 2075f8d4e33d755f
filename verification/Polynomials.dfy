/** Polynomial products and their action on R_q; powers of `Shift`. */
module Polynomials {
  import opened Field
  import opened Vectors
  import opened Ring

  // ----- powers of Shift -----

  lemma {:induction false} ShiftNLast(n: nat, v: Rq)
    ensures ShiftN(n + 1, v) == Shift(ShiftN(n, v))
  {
    if n != 0 {
      ShiftNLast(n - 1, Shift(v));
    }
  }

  lemma {:induction false} ShiftNSum(m: nat, n: nat, v: Rq)
    ensures ShiftN(m + n, v) == ShiftN(m, ShiftN(n, v))
  {
    if m != 0 {
      ShiftNSum(m - 1, n, Shift(v));
      ShiftNLast(n, v);
      assert ShiftN(m, ShiftN(n, v)) == ShiftN(m - 1, ShiftN(n, Shift(v)));
    }
  }

  /** Explicit form of j <= 27 shifts: only the two wrapped windows change. */
  function Rotated(j: nat, v: Rq): Rq
    requires j <= H
  {
    seq(D, k requires 0 <= k < D => RotatedAt(j, v, k))
  }

  function RotatedAt(j: nat, v: Rq, k: nat): Fq
    requires j <= H && k < D
  {
    if k < j then Neg(v[D - j + k])
    else if H <= k < H + j then Sub(v[k - j], v[H - j + k])
    else v[k - j]
  }

  lemma {:induction false} RotatedIsShiftN(j: nat, v: Rq)
    requires j <= H
    ensures ShiftN(j, v) == Rotated(j, v)
  {
    if j == 0 {
      assert Rotated(0, v) == v;
    } else {
      RotatedIsShiftN(j - 1, v);
      ShiftNLast(j - 1, v);
      forall k | 0 <= k < D
        ensures ShiftAt(Rotated(j - 1, v), k) == RotatedAt(j, v, k)
      {}
    }
  }

  /** X^54 + X^27 + 1 annihilates everything, hence X^81 is the identity. */
  lemma PhiVanishes(v: Rq)
    ensures Plus(Plus(ShiftN(D, v), ShiftN(H, v)), v) == Zero
    ensures ShiftN(D + H, v) == v
  {
    var w := ShiftN(H, v);
    RotatedIsShiftN(H, v);
    RotatedIsShiftN(H, w);
    ShiftNSum(H, H, v);
    var x := ShiftN(D, v);
    RotatedIsShiftN(H, x);
    ShiftNSum(H, D, v);
    assert x == Rotated(H, w);
    forall k | 0 <= k < D
      ensures Add(Add(x[k], w[k]), v[k]) == 0
      ensures RotatedAt(H, x, k) == v[k]
    {
      assert w[k] == RotatedAt(H, v, k);
      assert x[k] == RotatedAt(H, w, k);
      if k < H {
        assert x[k + H] == RotatedAt(H, w, k + H);
        assert w[k + H] == RotatedAt(H, v, k + H);
      } else {
        assert x[k - H] == RotatedAt(H, w, k - H);
        assert w[k - H] == RotatedAt(H, v, k - H);
      }
    }
  }

  // ----- Act as a function of the polynomial -----

  lemma {:induction false} ActAppend(a: Vec, b: Vec, v: Rq)
    ensures Act(a + b, v) == Plus(Act(a, v), Act(b, ShiftN(|a|, v)))
  {
    if a == [] {
      assert a + b == b;
      PlusZeros(Act(b, v));
    } else {
      assert (a + b)[1..] == a[1..] + b;
      ActAppend(a[1..], b, Shift(v));
      PlusAssoc(Scale(a[0], v), Act(a[1..], Shift(v)), Act(b, ShiftN(|a|, v)));
    }
  }

  lemma {:induction false} ActLeftPlus(a: Vec, b: Vec, v: Rq)
    requires |a| == |b|
    ensures Act(Plus(a, b), v) == Plus(Act(a, v), Act(b, v))
  {
    if a == [] {
      PlusZeros(Zero);
    } else {
      assert Plus(a, b)[1..] == Plus(a[1..], b[1..]);
      ActLeftPlus(a[1..], b[1..], Shift(v));
      ScaleAdd(a[0], b[0], v);
      PlusSwap(Scale(a[0], v), Scale(b[0], v), Act(a[1..], Shift(v)), Act(b[1..], Shift(v)));
    }
  }

  lemma {:induction false} ActLeftScale(c: Fq, a: Vec, v: Rq)
    ensures Act(Scale(c, a), v) == Scale(c, Act(a, v))
  {
    if a == [] {
      ScaleZeros(c, D);
    } else {
      assert Scale(c, a)[1..] == Scale(c, a[1..]);
      ActLeftScale(c, a[1..], Shift(v));
      ScaleScale(c, a[0], v);
      ScalePlus(c, Scale(a[0], v), Act(a[1..], Shift(v)));
    }
  }

  lemma {:induction false} ActLeftZeros(n: nat, v: Rq)
    ensures Act(Zeros(n), v) == Zero
  {
    if n != 0 {
      assert Zeros(n)[1..] == Zeros(n - 1);
      ActLeftZeros(n - 1, Shift(v));
      ScaleOne(v);
      PlusZeros(Zero);
    }
  }

  lemma {:induction false} ActUpdate(a: Vec, i: nat, x: Fq, v: Rq)
    requires i < |a|
    ensures Act(a[i := Add(a[i], x)], v) == Plus(Act(a, v), Scale(x, ShiftN(i, v)))
  {
    var b := a[i := Add(a[i], x)];
    if i == 0 {
      assert b[1..] == a[1..];
      ScaleAdd(a[0], x, v);
      var p, q, r := Scale(a[0], v), Scale(x, v), Act(a[1..], Shift(v));
      PlusAssoc(p, q, r);
      PlusComm(q, r);
      PlusAssoc(p, r, q);
    } else {
      assert b[1..] == a[1..][i - 1 := Add(a[i], x)];
      ActUpdate(a[1..], i - 1, x, Shift(v));
      PlusAssoc(Scale(a[0], v), Act(a[1..], Shift(v)), Scale(x, ShiftN(i, v)));
    }
  }

  // ----- products of polynomials -----

  /** Coefficient k of (a[0] + .. + a[i-1] X^(i-1)) * b. */
  function Conv(a: Vec, b: Vec, k: int, i: nat): Fq
    requires i <= |a|
  {
    if i == 0 then 0
    else Add(Conv(a, b, k, i - 1), ConvTerm(a, b, k, i - 1))
  }

  function ConvTerm(a: Vec, b: Vec, k: int, i: nat): Fq
    requires i < |a|
  {
    if 0 <= k - i < |b| then Mul(a[i], b[k - i]) else 0
  }

  function PartialProduct(a: Vec, b: Vec, i: nat): (p: Vec)
    requires |a| + |b| > 0 && i <= |a|
    ensures |p| == |a| + |b| - 1
  {
    seq(|a| + |b| - 1, k requires 0 <= k => Conv(a, b, k, i))
  }

  /** Coefficients of a * b. */
  function PolyTimes(a: Vec, b: Vec): (p: Vec)
    requires |a| + |b| > 0
    ensures |p| == |a| + |b| - 1
  {
    PartialProduct(a, b, |a|)
  }

  lemma {:induction false} ActPartialProduct(a: Vec, b: Vec, i: nat, v: Rq)
    requires i <= |a| && b != []
    ensures Act(PartialProduct(a, b, i), v) == Act(a[..i], Act(b, v))
  {
    if i == 0 {
      assert PartialProduct(a, b, 0) == Zeros(|a| + |b| - 1);
      ActLeftZeros(|a| + |b| - 1, v);
    } else {
      var j := i - 1;
      var mid := Scale(a[j], b);
      var tail := Zeros(|a| - 1 - j);
      var row := Zeros(j) + (mid + tail);
      assert PartialProduct(a, b, i) == Plus(PartialProduct(a, b, j), row);
      ActLeftPlus(PartialProduct(a, b, j), row, v);
      ActPartialProduct(a, b, j, v);
      ActAppend(Zeros(j), mid + tail, v);
      ActLeftZeros(j, v);
      var w := ShiftN(j, v);
      ActAppend(mid, tail, w);
      ActLeftZeros(|tail|, ShiftN(|mid|, w));
      ActLeftScale(a[j], b, w);
      PlusZeros(Act(mid, w));
      assert Act(row, v) == Scale(a[j], Act(b, w));
      ActShiftN(b, j, v);
      assert a[..i] == a[..j] + [a[j]];
      ActAppend(a[..j], [a[j]], Act(b, v));
      ActSingle(a[j], ShiftN(j, Act(b, v)));
    }
  }

  lemma ActSingle(c: Fq, v: Rq)
    ensures Act([c], v) == Scale(c, v)
  {
    assert [c][1..] == [];
    PlusZeros(Scale(c, v));
  }

  lemma {:induction false} ActShiftN(a: Vec, n: nat, v: Rq)
    ensures Act(a, ShiftN(n, v)) == ShiftN(n, Act(a, v))
  {
    if n != 0 {
      ActShiftN(a, n - 1, Shift(v));
      ActShift(a, v);
    }
  }

  /** The product polynomial acts as the composition of the two actions. */
  lemma ActPolyTimes(a: Vec, b: Vec, v: Rq)
    requires b != []
    ensures Act(PolyTimes(a, b), v) == Act(a, Act(b, v))
  {
    ActPartialProduct(a, b, |a|, v);
    assert a[..|a|] == a;
  }

  /** So the product in R_q is the polynomial product reduced: the reduction of p is p applied to 1. */
  lemma TimesIsReducedProduct(a: Rq, b: Rq)
    ensures Times(a, b) == Act(PolyTimes(a, b), One)
  {
    ActPolyTimes(a, b, One);
    ActOne(b);
  }
}
