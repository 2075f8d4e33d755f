/** Multiplication by monomials, rotation matrices and their validation. */
module Rotations {
  import opened Field
  import opened Vectors
  import opened Ring
  import opened Polynomials

  // ----- one rotation step -----

  /** `rot_step`: writes the next rotation column into `next`. */
  method RotStep(cur: array<Fq>, next: array<Fq>)
    requires cur.Length == next.Length == D && cur != next
    modifies next
    ensures next[..] == Shift(cur[..])
  {
    var last := cur[D - 1];
    next[0] := 0;
    forall k | 1 <= k < D {
      next[k] := cur[k - 1];
    }
    next[0] := Sub(next[0], last);
    next[27] := Sub(next[27], last);
    assert forall k :: 0 <= k < D ==> next[k] == ShiftAt(cur[..], k);
  }

  // ----- mul_by_monomial -----

  /** Highest exponent that the branches of `mul_by_monomial` handle, plus one. */
  const CUTOFF: nat := 135

  /** The coefficients i < n that a shift by j does not drop. */
  function Kept(a: Rq, j: nat, n: nat): Rq {
    seq(D, i requires 0 <= i < D => KeptAt(a, j, n, i))
  }

  function KeptAt(a: Rq, j: nat, n: nat, i: nat): Fq
    requires i < D
  {
    if i < n && i + j < CUTOFF then a[i] else 0
  }

  /** X^n in coefficients, for the exponents below the cutoff. */
  lemma PowersOfX(n: nat)
    requires n < CUTOFF
    ensures n < D ==> ShiftN(n, One) == Mono(n)
    ensures D <= n < D + H ==> ShiftN(n, One) == Minus(Minus(Zero, Mono(n - D)), Mono(n - H))
    ensures D + H <= n ==> ShiftN(n, One) == Mono(n - D - H)
  {
    if n < D {
      LowPower(n);
    } else if n < D + H {
      var m := Mono(n - D);
      LowPower(n - D);
      LowPower(n - H);
      ShiftNSum(D, n - D, One);
      ShiftNSum(H, n - D, One);
      PhiVanishes(m);
      var x := ShiftN(n, One);
      forall k | 0 <= k < D
        ensures x[k] == Minus(Minus(Zero, m), Mono(n - H))[k]
      {
        assert Plus(Plus(x, Mono(n - H)), m)[k] == Zero[k];
      }
    } else {
      LowPower(n - D - H);
      ShiftNSum(D + H, n - D - H, One);
      PhiVanishes(ShiftN(n - D - H, One));
    }
  }

  lemma {:induction false} LowPower(n: nat)
    requires n < D
    ensures ShiftN(n, One) == Mono(n)
  {
    if n != 0 {
      LowPower(n - 1);
      ShiftNLast(n - 1, One);
      ShiftMono(n - 1);
    }
  }

  /** Multiplication by a monomial is a rotation. */
  lemma TimesMono(a: Rq, t: nat)
    requires t < D
    ensures Times(a, Mono(t)) == ShiftN(t, a)
  {
    LowPower(t);
    ActShiftN(a, t, One);
    ActOne(a);
  }

  lemma KeptStep(a: Rq, j: nat, i: nat)
    requires i < D
    ensures Act(Kept(a, j, i + 1), ShiftN(j, One))
         == if i + j < CUTOFF then Plus(Act(Kept(a, j, i), ShiftN(j, One)), Scale(a[i], ShiftN(i + j, One)))
            else Act(Kept(a, j, i), ShiftN(j, One))
  {
    if i + j < CUTOFF {
      assert Kept(a, j, i + 1) == Kept(a, j, i)[i := Add(Kept(a, j, i)[i], a[i])];
      ActUpdate(Kept(a, j, i), i, a[i], ShiftN(j, One));
      ShiftNSum(i, j, One);
    } else {
      assert Kept(a, j, i + 1) == Kept(a, j, i);
    }
  }

  lemma KeptResult(a: Rq, j: nat)
    ensures Act(Kept(a, j, 0), ShiftN(j, One)) == Zero
    ensures Act(Kept(a, j, D), ShiftN(j, One)) == ShiftN(j, Kept(a, j, D))
  {
    assert Kept(a, j, 0) == Zeros(D);
    ActLeftZeros(D, ShiftN(j, One));
    ActShiftN(Kept(a, j, D), j, One);
    ActOne(Kept(a, j, D));
  }

  lemma ScaleMono(c: Fq, k: nat, i: nat)
    requires k < D && i < D
    ensures Mul(c, Mono(k)[i]) == if i == k then c else 0
  {
    MulOne(c);
  }

  lemma ScaleMinusMono(c: Fq, k: nat, l: nat, i: nat)
    requires k < D && l < D && i < D && k != l
    ensures Mul(c, Minus(Minus(Zero, Mono(k)), Mono(l))[i]) == if i == k || i == l then Neg(c) else 0
  {
    MulOne(c);
    MulNeg(c, 1);
    hide Mul;
  }

  /** What one iteration of `mul_by_monomial` does to the buffer, for the term x X^n. */
  ghost function MonomialStep(s: Rq, x: Fq, n: nat): Rq {
    if n < D then s[n := x]
    else if n < D + 27 then
      s[n - D := Sub(s[n - D], x)][n - 27 := Sub(s[n - 27], x)]
    else
      var s1 := if n - D < D then s[n - D := Sub(s[n - D], x)] else s;
      if n - 27 - D < D then
        var s2 := s1[n - 27 - D := Add(s1[n - 27 - D], x)];
        if n - D < D then s2[n - D := Add(s2[n - D], x)] else s2
      else s1
  }

  lemma MonomialStepAdds(s: Rq, x: Fq, n: nat)
    requires n < D ==> s[n] == 0
    ensures n < CUTOFF ==> MonomialStep(s, x, n) == Plus(s, Scale(x, ShiftN(n, One)))
    ensures n >= CUTOFF ==> MonomialStep(s, x, n) == s
  {
    if n < CUTOFF {
      PowersOfX(n);
      var p := ShiftN(n, One);
      var t := MonomialStep(s, x, n);
      forall k | 0 <= k < D
        ensures t[k] == Add(s[k], Mul(x, p[k]))
      {
        if n < D {
          ScaleMono(x, n, k);
        } else if n < D + H {
          ScaleMinusMono(x, n - D, n - H, k);
        } else {
          ScaleMono(x, n - D - H, k);
        }
        hide Mul;
      }
    }
  }

  /** The branches of `mul_by_monomial` for the term x X^newDeg. */
  method AddMonomialTerm(out: array<Fq>, x: Fq, newDeg: nat)
    requires out.Length == D
    modifies out
    ensures out[..] == MonomialStep(old(out[..]), x, newDeg)
  {
    if newDeg < D {
      out[newDeg] := x;
    } else if newDeg < D + 27 {
      var reduced := newDeg - D;
      out[reduced] := Sub(out[reduced], x);
      out[reduced + 27] := Sub(out[reduced + 27], x);
    } else {
      var deg1, deg2 := newDeg - 27, newDeg - D;
      if deg2 < D {
        out[deg2] := Sub(out[deg2], x);
      }
      var deg1Red := deg1 - D;
      if deg1Red < D {
        out[deg1Red] := Add(out[deg1Red], x);
        if deg1Red + 27 < D {
          out[deg1Red + 27] := Add(out[deg1Red + 27], x);
        }
      }
    }
  }

  /** `mul_by_monomial`, for every exponent: X^j times the coefficients it does not drop. */
  method MulByMonomial(a: Rq, j: nat) returns (r: Rq)
    ensures r == ShiftN(j, Kept(a, j, D))
  {
    hide Act, ShiftN, MonomialStep;
    if j == 0 {
      MonomialZero(a);
      return a;
    }
    var out := new Fq[D](i => 0);
    KeptResult(a, j);
    assert out[..] == Zero;
    for i := 0 to D
      invariant out[..] == Act(Kept(a, j, i), ShiftN(j, One))
      invariant forall k :: i + j <= k < D ==> out[k] == 0
    {
      MonomialStepAdds(out[..], a[i], i + j);
      MonomialStepTop(out[..], a[i], i + j);
      KeptStep(a, j, i);
      AddMonomialTerm(out, a[i], i + j);
    }
    r := out[..];
  }

  lemma MonomialZero(a: Rq)
    ensures ShiftN(0, Kept(a, 0, D)) == a
  {
    assert Kept(a, 0, D) == a;
  }

  lemma MonomialStepTop(s: Rq, x: Fq, n: nat)
    ensures forall k :: n < k < D ==> MonomialStep(s, x, n)[k] == s[k]
  {}

  /** `mul_by_monomial(j)` is multiplication by X^j exactly when no nonzero coefficient reaches the cutoff. */
  lemma MulByMonomialExact(a: Rq, j: nat)
    ensures ShiftN(j, Kept(a, j, D)) == ShiftN(j, a) <==> forall i :: 0 <= i < D && i + j >= CUTOFF ==> a[i] == 0
  {
    var b := Kept(a, j, D);
    if ShiftN(j, b) == ShiftN(j, a) {
      ShiftNInjective(j, b, a);
      assert forall i :: 0 <= i < D ==> a[i] == KeptAt(a, j, D, i);
    }
    if forall i :: 0 <= i < D && i + j >= CUTOFF ==> a[i] == 0 {
      assert b == a;
    }
  }

  /** Hence it is right on every operand exactly for j <= 81; the callers use j <= 80. */
  lemma MulByMonomialRange(j: nat)
    ensures (forall a: Rq :: ShiftN(j, Kept(a, j, D)) == ShiftN(j, a)) <==> j <= 81
  {
    if j <= 81 {
      forall a: Rq
        ensures ShiftN(j, Kept(a, j, D)) == ShiftN(j, a)
      {
        MulByMonomialExact(a, j);
      }
    } else {
      MulByMonomialExact(Mono(53), j);
      assert Mono(53)[53] == 1;
    }
  }

  lemma {:induction false} ShiftNInjective(n: nat, u: Rq, v: Rq)
    requires ShiftN(n, u) == ShiftN(n, v)
    ensures u == v
  {
    if n != 0 {
      ShiftNInjective(n - 1, Shift(u), Shift(v));
      var su, sv := Shift(u), Shift(v);
      assert su[0] == sv[0] && su[H] == sv[H];
      forall k | 0 <= k < D
        ensures u[k] == v[k]
      {
        if k + 1 < D && k + 1 != H {
          assert su[k + 1] == ShiftAt(u, k + 1) && sv[k + 1] == ShiftAt(v, k + 1);
        }
      }
    }
  }

  // ----- rotation matrices -----

  /** Matrices as columns of field elements, all of the same height. */
  type Columns = seq<Rq>

  /** Column step of `rot_from_coeffs` for X^54 + phi[53] X^53 + .. + phi[0]. */
  function PhiShift(phi: seq<int>, v: Rq): Rq
    requires |phi| == D
  {
    seq(D, r requires 0 <= r < D => PhiShiftAt(phi, v, r))
  }

  function PhiShiftAt(phi: seq<int>, v: Rq, r: nat): Fq
    requires |phi| == D && r < D
  {
    var t := Mul(v[D - 1], Red(-phi[r]));
    if r == 0 then t else Add(v[r - 1], t)
  }

  function PhiShiftN(phi: seq<int>, n: nat, v: Rq): Rq
    requires |phi| == D
  {
    if n == 0 then v else PhiShift(phi, PhiShiftN(phi, n - 1, v))
  }

  /** Coefficients of X^54 + X^27 + 1 below the leading one. */
  const PHI_GL: seq<int> := seq(D, i => if i == 0 || i == 27 then 1 else 0)

  /** rot(a): column j is a multiplied by X^j. */
  function Rot(a: Rq): Columns {
    seq(D, j requires 0 <= j => ShiftN(j, a))
  }

  lemma PhiShiftGoldilocks(v: Rq)
    ensures PhiShift(PHI_GL, v) == Shift(v)
  {
    RedUnique(-1, -1, Q - 1);
    RedUnique(0, 0, 0);
    forall r | 0 <= r < D
      ensures PhiShiftAt(PHI_GL, v, r) == ShiftAt(v, r)
    {
      MulNeg(v[D - 1], 1);
      MulOne(v[D - 1]);
      hide Mul, Red;
    }
  }

  lemma {:induction false} PhiShiftNGoldilocks(n: nat, v: Rq)
    ensures PhiShiftN(PHI_GL, n, v) == ShiftN(n, v)
  {
    if n != 0 {
      PhiShiftNGoldilocks(n - 1, v);
      PhiShiftGoldilocks(ShiftN(n - 1, v));
      ShiftNLast(n - 1, v);
    }
  }

  method NextColumn(col: Rq, phi: seq<int>) returns (next: Rq)
    requires |phi| == D
    ensures next == PhiShift(phi, col)
  {
    hide Mul, Red, Add;
    var last := col[D - 1];
    var buf := new Fq[D](i => 0);
    buf[0] := Mul(last, Red(-phi[0]));
    for r := 1 to D
      invariant forall s :: 0 <= s < r ==> buf[s] == PhiShiftAt(phi, col, s)
    {
      buf[r] := Add(col[r - 1], Mul(last, Red(-phi[r])));
    }
    next := buf[..];
  }

  /** `rot_from_coeffs`: every column is one shift of the previous one. */
  method RotFromCoeffs(a: Rq, phi: seq<int>) returns (rho: array2<Fq>)
    requires |phi| == D
    ensures fresh(rho) && rho.Length0 == rho.Length1 == D
    ensures forall r, j :: 0 <= r < D && 0 <= j < D ==> rho[r, j] == PhiShiftN(phi, j, a)[r]
  {
    hide PhiShift;
    rho := new Fq[D, D]((r, j) => 0);
    var col := a;
    for j := 0 to D
      invariant col == PhiShiftN(phi, j, a)
      invariant forall r, k :: 0 <= r < D && 0 <= k < j ==> rho[r, k] == PhiShiftN(phi, k, a)[r]
    {
      for r := 0 to D
        invariant forall s, k :: 0 <= s < D && 0 <= k < j ==> rho[s, k] == PhiShiftN(phi, k, a)[s]
        invariant forall s :: 0 <= s < r ==> rho[s, j] == col[s]
      {
        rho[r, j] := col[r];
      }
      col := NextColumn(col, phi);
    }
  }

  datatype RhoError = RhoShape | PhiLength | Recurrence(col: nat, row: nat)

  datatype RhoCheck = Accepted | Rejected(error: RhoError)

  function ColumnOf(rho: array2<Fq>, j: nat): (v: Vec)
    requires j < rho.Length1
    reads rho
    ensures |v| == rho.Length0
  {
    seq(rho.Length0, r requires 0 <= r < rho.Length0 reads rho => rho[r, j])
  }

  /** First row at which column j + 1 is not the shift of column j, or D. */
  method FirstMismatch(rho: array2<Fq>, phi: seq<int>, j: nat) returns (row: nat)
    requires rho.Length0 == rho.Length1 == |phi| == D && j + 1 < D
    ensures row <= D
    ensures row == D <==> ColumnOf(rho, j + 1) == PhiShift(phi, ColumnOf(rho, j))
    ensures forall s :: 0 <= s < row ==> ColumnOf(rho, j + 1)[s] == PhiShift(phi, ColumnOf(rho, j))[s]
    ensures row < D ==> ColumnOf(rho, j + 1)[row] != PhiShift(phi, ColumnOf(rho, j))[row]
  {
    hide Mul, Red, Add;
    ghost var col, nxt := ColumnOf(rho, j), ColumnOf(rho, j + 1);
    var last := rho[D - 1, j];
    if rho[0, j + 1] != Mul(last, Red(-phi[0])) {
      assert nxt[0] != PhiShift(phi, col)[0];
      return 0;
    }
    for r := 1 to D
      invariant forall s :: 0 <= s < r ==> nxt[s] == PhiShiftAt(phi, col, s)
    {
      var want := Add(rho[r - 1, j], Mul(last, Red(-phi[r])));
      if rho[r, j + 1] != want {
        assert nxt[r] != PhiShift(phi, col)[r];
        return r;
      }
    }
    assert nxt == PhiShift(phi, col);
    row := D;
  }

  /** Column col, row row is the first entry that is not the shift of the column before. */
  ghost predicate FirstBroken(rho: array2<Fq>, phi: seq<int>, col: nat, row: nat)
    reads rho
  {
    && rho.Length0 == rho.Length1 == |phi| == D && 0 < col < D && row < D
    && (forall j :: 0 < j < col ==> ColumnOf(rho, j) == PhiShiftN(phi, j, ColumnOf(rho, 0)))
    && (forall s :: 0 <= s < row ==> ColumnOf(rho, col)[s] == PhiShift(phi, ColumnOf(rho, col - 1))[s])
    && ColumnOf(rho, col)[row] != PhiShift(phi, ColumnOf(rho, col - 1))[row]
  }

  /** `validate_rho_is_rotation_matrix` accepts exactly the rotation matrices of their first column. */
  method ValidateRho(rho: array2<Fq>, phi: seq<int>) returns (c: RhoCheck)
    ensures c.Accepted? <==>
      rho.Length0 == D && rho.Length1 == D && |phi| == D
      && forall j :: 0 <= j < D ==> ColumnOf(rho, j) == PhiShiftN(phi, j, ColumnOf(rho, 0))
    ensures c == Rejected(RhoShape) <==> rho.Length0 != D || rho.Length1 != D
    ensures c == Rejected(PhiLength) <==> rho.Length0 == rho.Length1 == D && |phi| != D
    ensures c.Rejected? && c.error.Recurrence? ==>
      FirstBroken(rho, phi, c.error.col, c.error.row)
  {
    hide ColumnOf, PhiShift;
    if rho.Length0 != D || rho.Length1 != D {
      return Rejected(RhoShape);
    }
    if |phi| != D {
      return Rejected(PhiLength);
    }
    ghost var a := ColumnOf(rho, 0);
    for j := 0 to D - 1
      invariant forall k :: 0 <= k <= j ==> ColumnOf(rho, k) == PhiShiftN(phi, k, a)
    {
      var row := FirstMismatch(rho, phi, j);
      if row < D {
        assert ColumnOf(rho, j + 1) != PhiShiftN(phi, j + 1, a);
        return Rejected(Recurrence(j + 1, row));
      }
    }
    c := Accepted;
  }

  // ----- matrix action -----

  /** The first n terms of the dot product. */
  function Dot(u: Vec, v: Vec, n: nat): Fq
    requires n <= |u| && n <= |v|
  {
    if n == 0 then 0 else Add(Dot(u, v, n - 1), Mul(u[n - 1], v[n - 1]))
  }

  /** Row r of a matrix given by columns. */
  function RowOf(m: Columns, r: nat): Vec
    requires r < D
  {
    seq(|m|, j requires 0 <= j < |m| => m[j][r])
  }

  lemma {:induction false} RotRowDot(a: Rq, z: Rq, r: nat, n: nat)
    requires r < D && n <= D
    ensures Dot(RowOf(Rot(a), r), z, n) == Act(z[..n], a)[r]
  {
    if n != 0 {
      RotRowDot(a, z, r, n - 1);
      assert z[..n] == z[..n - 1] + [z[n - 1]];
      ActAppend(z[..n - 1], [z[n - 1]], a);
      ActSingle(z[n - 1], ShiftN(n - 1, a));
      MulComm(ShiftN(n - 1, a)[r], z[n - 1]);
    }
  }

  /** Applying the matrix rot(a) to a vector is multiplication by a in the ring. */
  lemma RotActsAsTimes(a: Rq, z: Rq, r: nat)
    requires r < D
    ensures Dot(RowOf(Rot(a), r), z, D) == Times(a, z)[r]
  {
    RotRowDot(a, z, r, D);
    assert z[..D] == z;
    TimesComm(a, z);
  }
}
