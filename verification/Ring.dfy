/**
 The ring R_q = F_q[X]/(X^54 + X^27 + 1), elements as coefficient vectors.  Everything rests on
 one linear map, `Shift` (multiplication by X), and on how a polynomial acts through it.
 */
module Ring {
  import opened Field
  import opened Vectors

  const H: nat := 27
  const D: nat := 54

  type Rq = v: Vec | |v| == D witness Zeros(D)

  const Zero: Rq := Zeros(D)

  /** The monomial X^k, k < D. */
  function Mono(k: nat): Rq
    requires k < D
  {
    seq(D, i => if i == k then 1 else 0)
  }

  const One: Rq := Mono(0)

  /** Multiplication by X modulo X^54 + X^27 + 1. */
  function Shift(v: Rq): Rq {
    seq(D, k requires 0 <= k < D => ShiftAt(v, k))
  }

  function ShiftAt(v: Rq, k: nat): Fq
    requires k < D
  {
    if k == 0 then Neg(v[D - 1])
    else if k == H then Sub(v[H - 1], v[D - 1])
    else v[k - 1]
  }

  function ShiftN(n: nat, v: Rq): Rq {
    if n == 0 then v else ShiftN(n - 1, Shift(v))
  }

  /** The polynomial with coefficients a, of any length, applied to v: the sum of a[t] X^t v. */
  function Act(a: Vec, v: Rq): Rq {
    if a == [] then Zero
    else Plus(Scale(a[0], v), Act(a[1..], Shift(v)))
  }

  /** Ring product. */
  function Times(a: Rq, b: Rq): Rq { Act(a, b) }

  // ----- Shift and Act are linear -----

  lemma ShiftPlus(u: Rq, v: Rq)
    ensures Shift(Plus(u, v)) == Plus(Shift(u), Shift(v))
  {
    forall k | 0 <= k < D
      ensures ShiftAt(Plus(u, v), k) == Add(ShiftAt(u, k), ShiftAt(v, k))
    {}
  }

  lemma ShiftScale(c: Fq, v: Rq)
    ensures Shift(Scale(c, v)) == Scale(c, Shift(v))
  {
    MulNeg(c, v[D - 1]);
    MulSub(c, v[H - 1], v[D - 1]);
  }

  lemma ShiftZero()
    ensures Shift(Zero) == Zero
  {
    assert forall k :: 0 <= k < D ==> ShiftAt(Zero, k) == 0;
  }

  lemma ShiftMono(k: nat)
    requires k + 1 < D
    ensures Shift(Mono(k)) == Mono(k + 1)
  {
    assert forall i :: 0 <= i < D ==> ShiftAt(Mono(k), i) == Mono(k + 1)[i];
  }

  lemma {:induction false} ActPlus(a: Vec, u: Rq, v: Rq)
    ensures Act(a, Plus(u, v)) == Plus(Act(a, u), Act(a, v))
  {
    if a != [] {
      ScalePlus(a[0], u, v);
      ShiftPlus(u, v);
      ActPlus(a[1..], Shift(u), Shift(v));
      PlusSwap(Scale(a[0], u), Scale(a[0], v), Act(a[1..], Shift(u)), Act(a[1..], Shift(v)));
    }
  }

  lemma {:induction false} ActScale(a: Vec, c: Fq, v: Rq)
    ensures Act(a, Scale(c, v)) == Scale(c, Act(a, v))
  {
    if a == [] {
      ScaleZeros(c, D);
    } else {
      ScaleScale(a[0], c, v);
      ShiftScale(c, v);
      ActScale(a[1..], c, Shift(v));
      ScalePlus(c, Scale(a[0], v), Act(a[1..], Shift(v)));
    }
  }

  lemma {:induction false} ActShift(a: Vec, v: Rq)
    ensures Act(a, Shift(v)) == Shift(Act(a, v))
  {
    if a == [] {
      ShiftZero();
    } else {
      ShiftScale(a[0], v);
      ActShift(a[1..], Shift(v));
      ShiftPlus(Scale(a[0], v), Act(a[1..], Shift(v)));
    }
  }

  /** All polynomial actions commute with each other. */
  lemma {:induction false} ActComm(a: Vec, b: Vec, v: Rq)
    ensures Act(a, Act(b, v)) == Act(b, Act(a, v))
  {
    if a == [] {
      ActZero(b);
    } else {
      ActShift(b, v);
      ActComm(a[1..], b, Shift(v));
      ActScale(b, a[0], v);
      ActPlus(b, Scale(a[0], v), Act(a[1..], Shift(v)));
    }
  }

  lemma {:induction false} ActZero(a: Vec)
    ensures Act(a, Zero) == Zero
  {
    if a != [] {
      ScaleZeros(a[0], D);
      ShiftZero();
      ActZero(a[1..]);
      PlusZeros(Zero);
    }
  }

  lemma {:induction false} ActMono(a: Vec, k: nat)
    requires k + |a| == D
    ensures k < D ==> Act(a, Mono(k)) == Zeros(k) + a
    ensures k == D ==> Act(a, Zero) == Zeros(k) + a
  {
    if k < D {
      var rest := a[1..];
      forall i | 0 <= i < D
        ensures Scale(a[0], Mono(k))[i] == if i == k then a[0] else 0
      {
        MulOne(a[0]);
      }
      if k + 1 < D {
        ShiftMono(k);
        ActMono(rest, k + 1);
      } else {
        assert rest == [];
      }
      assert Act(rest, Shift(Mono(k))) == Zeros(k + 1) + rest;
    }
  }

  lemma ActOne(a: Rq)
    ensures Act(a, One) == a
  {
    ActMono(a, 0);
  }

  // ----- R_q is a commutative ring with unit -----

  lemma TimesComm(a: Rq, b: Rq)
    ensures Times(a, b) == Times(b, a)
  {
    ActOne(a);
    ActOne(b);
    ActComm(a, b, One);
  }

  lemma TimesAssoc(a: Rq, b: Rq, c: Rq)
    ensures Times(Times(a, b), c) == Times(a, Times(b, c))
  {
    TimesComm(Times(a, b), c);
    TimesComm(b, c);
    ActComm(c, a, b);
  }

  lemma TimesPlus(a: Rq, b: Rq, c: Rq)
    ensures Times(a, Plus(b, c)) == Plus(Times(a, b), Times(a, c))
    ensures Times(Plus(b, c), a) == Plus(Times(b, a), Times(c, a))
  {
    ActPlus(a, b, c);
    TimesComm(a, Plus(b, c));
    TimesComm(a, b);
    TimesComm(a, c);
  }

  lemma TimesOne(a: Rq)
    ensures Times(One, a) == a == Times(a, One)
    ensures Times(Zero, a) == Zero == Times(a, Zero)
  {
    ActOne(a);
    ActZero(a);
    TimesComm(One, a);
    TimesComm(Zero, a);
  }

  lemma TimesScale(c: Fq, a: Rq, b: Rq)
    ensures Times(Scale(c, a), b) == Scale(c, Times(a, b)) == Times(a, Scale(c, b))
  {
    ActScale(a, c, b);
    ActScale(b, c, a);
    TimesComm(a, b);
    TimesComm(Scale(c, a), b);
  }
}
