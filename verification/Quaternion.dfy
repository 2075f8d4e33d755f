/** The conjugation theta of R_q and the quaternion order over it. */
module Quaternion {
  import opened Field
  import opened Vectors
  import opened Ring
  import opened Polynomials
  import opened Rotations

  // ----- theta -----

  /** f(X) to f(X^80), in coefficients. */
  function Theta(c: Rq): Rq {
    seq(D, k requires 0 <= k < D => ThetaAt(c, k))
  }

  function ThetaAt(c: Rq, k: nat): Fq
    requires k < D
  {
    if k == 0 then Sub(c[0], c[27])
    else if k < 27 then Neg(c[27 - k])
    else if k == 27 then Neg(c[27])
    else Sub(c[81 - k], c[54 - k])
  }

  /** `theta`. */
  method ApplyTheta(c: Rq) returns (r: Rq)
    ensures r == Theta(c)
  {
    var out := new Fq[D](i => 0);
    out[0] := c[0];
    for i := 1 to 28
      invariant out[0] == c[0] || i == 28
      invariant i == 28 ==> out[0] == Sub(c[0], c[27])
      invariant forall k :: 1 <= k < 27 ==> out[k] == if 27 - k < i then Neg(c[27 - k]) else 0
      invariant forall k :: 27 <= k < D ==> out[k] == if 54 - k < i then Neg(c[54 - k]) else 0
    {
      var k := 27 - i;
      out[27 + k] := Sub(out[27 + k], c[i]);
      out[k] := Sub(out[k], c[i]);
    }
    for i := 28 to D
      invariant out[0] == Sub(c[0], c[27]) && out[27] == Neg(c[27])
      invariant forall k :: 1 <= k < 27 ==> out[k] == Neg(c[27 - k])
      invariant forall k :: 28 <= k < D ==>
        out[k] == if 81 - k < i then Sub(c[81 - k], c[54 - k]) else Neg(c[54 - k])
    {
      out[81 - i] := Add(out[81 - i], c[i]);
    }
    r := out[..];
    assert forall k :: 0 <= k < D ==> r[k] == ThetaAt(c, k);
  }

  lemma ThetaPlus(a: Rq, b: Rq)
    ensures Theta(Plus(a, b)) == Plus(Theta(a), Theta(b))
  {
    var c := Plus(a, b);
    forall k | 0 <= k < D
      ensures ThetaAt(c, k) == Add(ThetaAt(a, k), ThetaAt(b, k))
    {
      if k == 0 {
        SubAdds(a[0], b[0], a[27], b[27]);
      } else if k < 27 {
        SubAdds(0, 0, a[27 - k], b[27 - k]);
      } else if k == 27 {
        SubAdds(0, 0, a[27], b[27]);
      } else {
        SubAdds(a[81 - k], b[81 - k], a[54 - k], b[54 - k]);
      }
      hide Add, Sub, Neg;
    }
  }

  lemma SubAdds(a: Fq, b: Fq, c: Fq, d: Fq)
    ensures Sub(Add(a, b), Add(c, d)) == Add(Sub(a, c), Sub(b, d))
    ensures Neg(Add(c, d)) == Add(Neg(c), Neg(d))
  {}

  lemma ThetaMinus(a: Rq, b: Rq)
    ensures Theta(Minus(a, b)) == Minus(Theta(a), Theta(b))
  {
    hide Theta;
    PlusMinus(a, b);
    ThetaPlus(Minus(a, b), b);
    PlusMinus(Theta(Minus(a, b)), Theta(b));
  }

  lemma ThetaScale(s: Fq, a: Rq)
    ensures Theta(Scale(s, a)) == Scale(s, Theta(a))
  {
    forall k | 0 <= k < D
      ensures ThetaAt(Scale(s, a), k) == Mul(s, ThetaAt(a, k))
    {
      MulSub(s, a[0], a[27]);
      if k < 27 {
        MulNeg(s, a[27 - k]);
      } else {
        MulNeg(s, a[27]);
        if k > 27 {
          MulSub(s, a[81 - k], a[54 - k]);
        }
      }
      hide Mul, Sub, Neg;
    }
  }

  /** Theta is an involution. */
  lemma ThetaInvolution(a: Rq)
    ensures Theta(Theta(a)) == a
  {
    var t := Theta(a);
    forall k | 0 <= k < D
      ensures ThetaAt(t, k) == a[k]
    {
      assert t[27] == ThetaAt(a, 27) && t[0] == ThetaAt(a, 0);
      if 0 < k < 27 {
        assert t[27 - k] == ThetaAt(a, 27 - k);
      } else if k > 27 {
        assert t[81 - k] == ThetaAt(a, 81 - k) && t[54 - k] == ThetaAt(a, 54 - k);
      }
    }
  }

  /** Theta turns multiplication by X into multiplication by its inverse. */
  lemma ThetaShift(v: Rq)
    ensures Shift(Theta(Shift(v))) == Theta(v)
    ensures Theta(Shift(v)) == ShiftN(80, Theta(v))
  {
    var s := Shift(v);
    var t := Theta(s);
    forall k | 0 <= k < D
      ensures ShiftAt(t, k) == ThetaAt(v, k)
    {
      assert forall i :: 0 <= i < D ==> s[i] == ShiftAt(v, i);
      assert t[D - 1] == ThetaAt(s, D - 1) && t[H - 1] == ThetaAt(s, H - 1);
      if k > 0 {
        assert t[k - 1] == ThetaAt(s, k - 1);
      }
    }
    ShiftNSum(80, 1, t);
    PhiVanishes(t);
    assert ShiftN(1, t) == ShiftN(0, Shift(t));
  }

  /** The sum of a[i] X^(80 i) v. */
  function ActInverse(a: Vec, v: Rq): Rq {
    if a == [] then Zero else Plus(Scale(a[0], v), ActInverse(a[1..], ShiftN(80, v)))
  }

  lemma {:induction false} ThetaOfAct(a: Vec, v: Rq)
    ensures Theta(Act(a, v)) == ActInverse(a, Theta(v))
  {
    hide Theta, Scale, Plus;
    if a == [] {
      ThetaScale(0, Zero);
      ScaleOne(Zero);
      ScaleOne(Theta(Zero));
    } else {
      ThetaOfAct(a[1..], Shift(v));
      ThetaShift(v);
      ThetaPlus(Scale(a[0], v), Act(a[1..], Shift(v)));
      ThetaScale(a[0], v);
    }
  }

  lemma {:induction false} ActShiftNPower(b: Vec, n: nat, v: Rq)
    ensures Act(b, ShiftN(n, v)) == ShiftN(n, Act(b, v))
  {
    ActShiftN(b, n, v);
  }

  /** The inverse action commutes with every ring multiplication. */
  lemma {:induction false} ActInverseCommutes(a: Vec, b: Vec, v: Rq)
    ensures Act(b, ActInverse(a, v)) == ActInverse(a, Act(b, v))
  {
    hide Scale, Plus, ShiftN;
    if a == [] {
      ActZero(b);
    } else {
      ActInverseCommutes(a[1..], b, ShiftN(80, v));
      ActShiftNPower(b, 80, v);
      ActScale(b, a[0], v);
      ActPlus(b, Scale(a[0], v), ActInverse(a[1..], ShiftN(80, v)));
    }
  }

  lemma ThetaOne()
    ensures Theta(One) == One
  {
    assert forall k :: 0 <= k < D ==> ThetaAt(One, k) == One[k];
  }

  /** Theta is a ring homomorphism. */
  lemma ThetaTimes(a: Rq, b: Rq)
    ensures Theta(Times(a, b)) == Times(Theta(a), Theta(b))
  {
    hide Theta, ActInverse;
    ThetaOfAct(a, b);
    ThetaOfAct(a, One);
    ThetaOne();
    ActOne(a);
    var w := Theta(b);
    ActInverseCommutes(a, w, One);
    ActOne(w);
    TimesComm(Theta(a), w);
  }

  // ----- linear combinations in the ring -----

  lemma TimesMinus(a: Rq, b: Rq, c: Rq)
    ensures Times(a, Minus(b, c)) == Minus(Times(a, b), Times(a, c))
    ensures Times(Minus(b, c), a) == Minus(Times(b, a), Times(c, a))
  {
    hide Times;
    PlusMinus(b, c);
    TimesPlus(a, Minus(b, c), c);
    PlusMinus(Times(a, Minus(b, c)), Times(a, c));
    TimesComm(a, Minus(b, c));
    TimesComm(a, b);
    TimesComm(a, c);
  }

  function Negate(a: Rq): Rq { Minus(Zero, a) }

  /** In ker(1 + theta). */
  ghost predicate AntiFixed(a: Rq) { Theta(a) == Negate(a) }

  lemma MinusSwap(a: Rq, b: Rq)
    ensures Minus(a, b) == Negate(Minus(b, a))
  {}

  // ----- quaternions -----

  /** a0 + u a1. */
  datatype Quat = Quat(a0: Rq, a1: Rq)

  /** `QuatEl::mul`. */
  function QMul(a: Quat, b: Quat): Quat {
    Quat(Minus(Times(a.a0, b.a0), Times(Theta(a.a1), b.a1)), Plus(Times(a.a1, b.a0), Times(Theta(a.a0), b.a1)))
  }

  function QMinus(a: Quat, b: Quat): Quat { Quat(Minus(a.a0, b.a0), Minus(a.a1, b.a1)) }

  function QPlus(a: Quat, b: Quat): Quat { Quat(Plus(a.a0, b.a0), Plus(a.a1, b.a1)) }

  /** `QuatEl::commutator`. */
  function Commutator(a: Quat, b: Quat): Quat { QMinus(QMul(a, b), QMul(b, a)) }

  /** The embedding of a column as u z. */
  function Embed(z: Rq): Quat { Quat(Zero, z) }

  /** Quaternion multiplication is associative. */
  lemma QMulAssoc(a: Quat, b: Quat, c: Quat)
    ensures QMul(QMul(a, b), c) == QMul(a, QMul(b, c))
  {
    var ta0, ta1, tb0, tb1 := Theta(a.a0), Theta(a.a1), Theta(b.a0), Theta(b.a1);
    ThetaOfProduct(a, b);
    hide Theta, Times, Plus, Minus;
    LeftSide(a.a0, b.a0, ta1, b.a1, c.a0, true);
    LeftSide(ta1, tb0, a.a0, tb1, c.a1, false);
    RightSide(a.a0, b.a0, c.a0, tb1, c.a1, true);
    RightSide(ta1, b.a1, c.a0, tb0, c.a1, false);
    LeftSide(a.a1, b.a0, ta0, b.a1, c.a0, false);
    LeftSide(ta0, tb0, a.a1, tb1, c.a1, true);
    RightSide(a.a1, b.a0, c.a0, tb1, c.a1, true);
    RightSide(ta0, b.a1, c.a0, tb0, c.a1, false);
    Regroup(Times(a.a0, Times(b.a0, c.a0)), Times(ta1, Times(b.a1, c.a0)),
            Times(ta1, Times(tb0, c.a1)), Times(a.a0, Times(tb1, c.a1)));
    Regroup(Times(a.a1, Times(b.a0, c.a0)), Times(ta0, Times(b.a1, c.a0)),
            Times(ta0, Times(tb0, c.a1)), Times(a.a1, Times(tb1, c.a1)));
  }

  lemma ThetaOfProduct(a: Quat, b: Quat)
    ensures Theta(QMul(a, b).a1) == Plus(Times(Theta(a.a1), Theta(b.a0)), Times(a.a0, Theta(b.a1)))
    ensures Theta(QMul(a, b).a0) == Minus(Times(Theta(a.a0), Theta(b.a0)), Times(a.a1, Theta(b.a1)))
  {
    ThetaPlus(Times(a.a1, b.a0), Times(Theta(a.a0), b.a1));
    ThetaMinus(Times(a.a0, b.a0), Times(Theta(a.a1), b.a1));
    ThetaTimes(a.a1, b.a0);
    ThetaTimes(Theta(a.a0), b.a1);
    ThetaTimes(a.a0, b.a0);
    ThetaTimes(Theta(a.a1), b.a1);
    ThetaInvolution(a.a0);
    ThetaInvolution(a.a1);
    hide Theta, Times, Plus, Minus;
  }

  /** (x y -/+ z w) c, multiplied out. */
  lemma LeftSide(x: Rq, y: Rq, z: Rq, w: Rq, c: Rq, minus: bool)
    ensures Times(if minus then Minus(Times(x, y), Times(z, w)) else Plus(Times(x, y), Times(z, w)), c)
         == if minus then Minus(Times(x, Times(y, c)), Times(z, Times(w, c)))
            else Plus(Times(x, Times(y, c)), Times(z, Times(w, c)))
  {
    hide Times, Plus, Minus;
    TimesMinus(c, Times(x, y), Times(z, w));
    TimesPlus(c, Times(x, y), Times(z, w));
    TimesAssoc(x, y, c);
    TimesAssoc(z, w, c);
  }

  /** x (y c -/+ z d), multiplied out. */
  lemma RightSide(x: Rq, y: Rq, c: Rq, z: Rq, d: Rq, minus: bool)
    ensures Times(x, if minus then Minus(Times(y, c), Times(z, d)) else Plus(Times(y, c), Times(z, d)))
         == if minus then Minus(Times(x, Times(y, c)), Times(x, Times(z, d)))
            else Plus(Times(x, Times(y, c)), Times(x, Times(z, d)))
  {
    hide Times, Plus, Minus;
    TimesMinus(x, Times(y, c), Times(z, d));
    TimesPlus(x, Times(y, c), Times(z, d));
  }

  lemma Regroup(p: Rq, q: Rq, r: Rq, s: Rq)
    ensures Minus(Minus(p, q), Plus(r, s)) == Minus(Minus(p, s), Plus(q, r))
    ensures Plus(Plus(p, q), Minus(r, s)) == Plus(Minus(p, s), Plus(q, r))
  {
    forall k | 0 <= k < D
      ensures Sub(Sub(p[k], q[k]), Add(r[k], s[k])) == Sub(Sub(p[k], s[k]), Add(q[k], r[k]))
      ensures Add(Add(p[k], q[k]), Sub(r[k], s[k])) == Add(Sub(p[k], s[k]), Add(q[k], r[k]))
    {}
  }

  /** Commutators are traceless: their first component is anti-fixed. */
  lemma CommutatorIsTraceless(a: Quat, b: Quat)
    ensures AntiFixed(Commutator(a, b).a0)
    ensures Commutator(a, b).a0 == Minus(Times(Theta(b.a1), a.a1), Times(Theta(a.a1), b.a1))
  {
    var x, y := Times(Theta(b.a1), a.a1), Times(Theta(a.a1), b.a1);
    TimesComm(a.a0, b.a0);
    CancelCommon(Times(a.a0, b.a0), y, x);
    ThetaMinus(x, y);
    ThetaTimes(Theta(b.a1), a.a1);
    ThetaTimes(Theta(a.a1), b.a1);
    ThetaInvolution(a.a1);
    ThetaInvolution(b.a1);
    TimesComm(b.a1, Theta(a.a1));
    TimesComm(a.a1, Theta(b.a1));
    MinusSwap(y, x);
    hide Theta, Times, Plus, Minus;
  }

  lemma CancelCommon(c: Rq, y: Rq, x: Rq)
    ensures Minus(Minus(c, y), Minus(c, x)) == Minus(x, y)
  {
    forall k | 0 <= k < D
      ensures Sub(Sub(c[k], y[k]), Sub(c[k], x[k])) == Sub(x[k], y[k])
    {}
  }

  /** The commutator with an embedded column. */
  lemma CommutatorWithColumn(a: Quat, z: Rq)
    ensures Commutator(a, Embed(z)).a0 == Minus(Times(a.a1, Theta(z)), Times(Theta(a.a1), z))
    ensures Commutator(a, Embed(z)).a1 == Times(z, Minus(Theta(a.a0), a.a0))
  {
    CommutatorIsTraceless(a, Embed(z));
    TimesComm(Theta(z), a.a1);
    TimesOne(a.a1);
    ThetaZero();
    TimesOne(z);
    TimesComm(Theta(a.a0), z);
    TimesOne(a.a0);
    TimesMinus(z, Theta(a.a0), a.a0);
    var x, y := Times(z, Theta(a.a0)), Times(z, a.a0);
    TimesComm(z, a.a0);
    PlusZeros(x);
    PlusZeros(y);
    assert Times(Zero, a.a1) == Zero by { TimesOne(a.a1); }
    hide Theta, Times, Plus, Minus;
  }

  lemma ThetaZero()
    ensures Theta(Zero) == Zero
  {
    assert forall k :: 0 <= k < D ==> ThetaAt(Zero, k) == 0;
  }

  // ----- the sparse commutator -----

  /** The sum of the listed monomials. */
  function BitsSum(bits: seq<nat>): Rq
    requires forall i :: 0 <= i < |bits| ==> bits[i] < D
  {
    if bits == [] then Zero
    else
      var n := |bits| - 1;
      Plus(BitsSum(bits[..n]), Mono(bits[n]))
  }

  /** Theta of a monomial: one or two monomials. */
  lemma ThetaMono(t: nat)
    requires 0 < t < D
    ensures t <= 27 ==> Theta(Mono(t)) == Minus(Minus(Zero, ShiftN(54 - t, One)), ShiftN(27 - t, One))
    ensures t > 27 ==> Theta(Mono(t)) == ShiftN(81 - t, One)
  {
    var m := Theta(Mono(t));
    if t <= 27 {
      LowPower(54 - t);
      LowPower(27 - t);
      forall k | 0 <= k < D
        ensures m[k] == Minus(Minus(Zero, Mono(54 - t)), Mono(27 - t))[k]
      {
        assert m[k] == ThetaAt(Mono(t), k);
      }
    } else {
      LowPower(81 - t);
      forall k | 0 <= k < D
        ensures m[k] == Mono(81 - t)[k]
      {
        assert m[k] == ThetaAt(Mono(t), k);
      }
    }
  }

  /** `mul_by_theta_monomial`. */
  method MulByThetaMonomial(a: Rq, t: nat) returns (r: Rq)
    requires t < D
    ensures r == Times(a, Theta(Mono(t)))
  {
    if t == 0 {
      LowPower(0);
      ThetaOne();
      TimesOne(a);
      return a;
    }
    ThetaMono(t);
    hide Theta;
    if t <= 27 {
      var shift1 := Rotate(a, 54 - t);
      var shift2 := Rotate(a, 27 - t);
      r := Minus(Minus(Zero, shift1), shift2);
      TimesMinus(a, Minus(Zero, ShiftN(54 - t, One)), ShiftN(27 - t, One));
      TimesMinus(a, Zero, ShiftN(54 - t, One));
      TimesOne(a);
    } else {
      r := Rotate(a, 81 - t);
    }
  }

  /** `mul_by_monomial` on the exponents where it is exact. */
  method Rotate(a: Rq, j: nat) returns (r: Rq)
    requires j <= 80
    ensures r == ShiftN(j, a) == Times(a, ShiftN(j, One))
  {
    r := MulByMonomial(a, j);
    MulByMonomialExact(a, j);
    ActShiftN(a, j, One);
    ActOne(a);
  }

  /** The loops of `commutator_with_uz_sparse`: both components of the full commutator. */
  method SparseCommutator(a: Quat, bits: seq<nat>) returns (comp0: Rq, comp1: Rq)
    requires forall i :: 0 <= i < |bits| ==> bits[i] < D
    ensures Quat(comp0, comp1) == Commutator(a, Embed(BitsSum(bits)))
  {
    hide Theta, Times, Plus, Minus;
    var thetaA0 := ApplyTheta(a.a0);
    var thetaA1 := ApplyTheta(a.a1);
    var diff := Minus(thetaA0, a.a0);
    comp0, comp1 := Zero, Zero;
    NoBits(a, diff);
    for i := 0 to |bits|
      invariant comp1 == Times(BitsSum(bits[..i]), diff)
      invariant comp0 == Minus(Times(a.a1, Theta(BitsSum(bits[..i]))), Times(thetaA1, BitsSum(bits[..i])))
    {
      var t := bits[i];
      assert bits[..i + 1][..i] == bits[..i];
      OneBit(a.a1, thetaA1, diff, BitsSum(bits[..i]), t);
      var shifted := Rotate(diff, t);
      comp1 := Plus(comp1, shifted);
      var ta1Shift := Rotate(thetaA1, t);
      var a1Theta := MulByThetaMonomial(a.a1, t);
      comp0 := Minus(Plus(comp0, a1Theta), ta1Shift);
    }
    assert bits[..|bits|] == bits;
    CommutatorWithColumn(a, BitsSum(bits));
  }

  lemma NoBits(a: Quat, diff: Rq)
    ensures Times(BitsSum([]), diff) == Zero
    ensures Minus(Times(a.a1, Theta(BitsSum([]))), Times(Theta(a.a1), BitsSum([]))) == Zero
  {
    TimesOne(diff);
    ThetaZero();
    TimesOne(a.a1);
    TimesOne(Theta(a.a1));
    hide Theta, Times;
    assert Minus(Zero, Zero) == Zero;
  }

  lemma OneBit(a1: Rq, ta1: Rq, diff: Rq, z: Rq, t: nat)
    requires t < D
    ensures var (w, m) := (Plus(z, Mono(t)), Mono(t));
      && Times(w, diff) == Plus(Times(z, diff), ShiftN(t, diff))
      && Minus(Times(a1, Theta(w)), Times(ta1, w))
         == Minus(Plus(Minus(Times(a1, Theta(z)), Times(ta1, z)), Times(a1, Theta(m))), ShiftN(t, ta1))
  {
    var m := Mono(t);
    TimesPlus(diff, z, m);
    TimesComm(m, diff);
    TimesMono(diff, t);
    TimesMono(ta1, t);
    ThetaPlus(z, m);
    TimesPlus(a1, Theta(z), Theta(m));
    TimesPlus(ta1, z, m);
    hide Theta, Times, ShiftN;
    FourTerms(Times(a1, Theta(z)), Times(a1, Theta(m)), Times(ta1, z), ShiftN(t, ta1));
  }

  lemma FourTerms(p: Rq, q: Rq, r: Rq, s: Rq)
    ensures Minus(Plus(p, q), Plus(r, s)) == Minus(Plus(Minus(p, r), q), s)
  {
    forall k | 0 <= k < D
      ensures Sub(Add(p[k], q[k]), Add(r[k], s[k])) == Sub(Add(Sub(p[k], r[k]), q[k]), s[k])
    {}
  }
}
