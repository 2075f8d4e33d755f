/** `Rq::mul`: 3-way Toom/Karatsuba product followed by the in-place reduction. */
module Multiply {
  import opened Field
  import opened Vectors
  import opened Ring
  import opened Polynomials

  const SPLIT: nat := 18
  const CHUNK_OUT: nat := 35

  const HALF: Fq := 0x7FFF_FFFF_8000_0001
  const SIXTH: Fq := 0xD555_5554_8000_0001

  // ----- reduction modulo X^54 + X^27 + 1 -----

  /** One step of the downward pass, at degree i. */
  ghost function ReduceStep(s: Vec, i: nat): (r: Vec)
    requires |s| == 2 * D - 1 && D <= i < |s|
    ensures |r| == |s|
  {
    var t := s[i];
    var s1 := s[i := 0];
    var s2 := s1[i - D := Sub(s1[i - D], t)];
    if i - H < D then s2[i - H := Sub(s2[i - H], t)]
    else
      var s3 := s2[i - H - D := Add(s2[i - H - D], t)];
      s3[i - H - H := Add(s3[i - H - H], t)]
  }

  lemma SubIsAddNeg(a: Fq, b: Fq)
    ensures Sub(a, b) == Add(a, Neg(b))
    ensures Add(a, Neg(a)) == 0
    ensures Neg(Neg(a)) == a
  {}

  /** Coefficients changed at two places act by two monomials. */
  lemma ActUpdateTwice(s: Vec, i: nat, x: Fq, j: nat, y: Fq, v: Rq)
    requires i < |s| && j < |s| && i != j
    ensures Act(s[i := Add(s[i], x)][j := Add(s[j], y)], v)
         == Plus(Plus(Act(s, v), Scale(x, ShiftN(i, v))), Scale(y, ShiftN(j, v)))
  {
    ActUpdate(s, i, x, v);
    ActUpdate(s[i := Add(s[i], x)], j, y, v);
  }

  lemma ReduceStepKeeps(s: Vec, i: nat)
    requires |s| == 2 * D - 1 && D <= i < |s|
    ensures Act(ReduceStep(s, i), One) == Act(s, One)
  {
    var t := s[i];
    var s2 := s[i := 0][i - D := Sub(s[i - D], t)];
    if i - H < D {
      ReduceLow(s, i, s2);
    } else {
      ReduceHigh(s, i, s2);
    }
  }

  lemma ReduceTop(s: Vec, i: nat, s2: Vec)
    requires |s| == 2 * D - 1 && D <= i < |s|
    requires s2 == s[i := 0][i - D := Sub(s[i - D], s[i])]
    ensures var n := Neg(s[i]);
            Act(s2, One) == Plus(Plus(Act(s, One), Scale(n, ShiftN(i, One))), Scale(n, ShiftN(i - D, One)))
  {
    hide Act, Plus, Scale, ShiftN;
    var t, k := s[i], i - D;
    SubIsAddNeg(t, t);
    SubIsAddNeg(s[k], t);
    ActUpdateTwice(s, i, Neg(t), k, Neg(t), One);
  }

  lemma ReduceLow(s: Vec, i: nat, s2: Vec)
    requires |s| == 2 * D - 1 && D <= i < D + H
    requires s2 == s[i := 0][i - D := Sub(s[i - D], s[i])]
    ensures Act(s2[i - H := Sub(s2[i - H], s[i])], One) == Act(s, One)
  {
    hide Act, Plus, Scale, ShiftN;
    var t, k := s[i], i - D;
    var base := ShiftN(k, One);
    ReduceTop(s, i, s2);
    SubIsAddNeg(s2[k + H], t);
    ActUpdate(s2, k + H, Neg(t), One);
    ShiftNSum(D, k, One);
    ShiftNSum(H, k, One);
    PhiVanishes(base);
    TripleCancels(Neg(t), Act(s, One), ShiftN(D, base), ShiftN(H, base), base);
  }

  lemma ReduceHigh(s: Vec, i: nat, s2: Vec)
    requires |s| == 2 * D - 1 && D + H <= i < |s|
    requires s2 == s[i := 0][i - D := Sub(s[i - D], s[i])]
    ensures var s3 := s2[i - H - D := Add(s2[i - H - D], s[i])];
            Act(s3[i - D := Add(s3[i - D], s[i])], One) == Act(s, One)
  {
    hide Act, Plus, Scale, ShiftN;
    var t, k := s[i], i - D;
    ReduceTop(s, i, s2);
    ActUpdateTwice(s2, k - H, t, k, t, One);
    ShiftNSum(D + H, k - H, One);
    PhiVanishes(ShiftN(k - H, One));
    PairCancels(t, Act(s, One), ShiftN(i, One), ShiftN(k, One));
  }

  lemma TripleCancels(n: Fq, a: Rq, x: Rq, y: Rq, z: Rq)
    requires Plus(Plus(x, y), z) == Zero
    ensures Plus(Plus(Plus(a, Scale(n, x)), Scale(n, z)), Scale(n, y)) == a
  {
    forall k | 0 <= k < D
      ensures Add(Add(Add(a[k], Mul(n, x[k])), Mul(n, z[k])), Mul(n, y[k])) == a[k]
    {
      assert Plus(Plus(x, y), z)[k] == Zero[k] == 0;
      MulAdd(n, Add(x[k], y[k]), z[k]);
      MulAdd(n, x[k], y[k]);
      MulOne(n);
      hide Mul;
    }
  }

  lemma PairCancels(t: Fq, a: Rq, x: Rq, z: Rq)
    ensures Plus(Plus(Plus(Plus(a, Scale(Neg(t), x)), Scale(Neg(t), z)), Scale(t, x)), Scale(t, z)) == a
  {
    forall k | 0 <= k < D
      ensures Add(Add(Add(Add(a[k], Mul(Neg(t), x[k])), Mul(Neg(t), z[k])), Mul(t, x[k])), Mul(t, z[k])) == a[k]
    {
      MulNeg(t, x[k]);
      MulNeg(t, z[k]);
      hide Mul;
    }
  }

  /** `reduce_mod_phi_81`: afterwards the low half is the old polynomial applied to 1. */
  method ReduceModPhi81(coeffs: array<Fq>)
    requires coeffs.Length == 2 * D - 1
    modifies coeffs
    ensures coeffs[..D] == Act(old(coeffs[..]), One)
    ensures forall k :: D <= k < 2 * D - 1 ==> coeffs[k] == 0
  {
    for i := 2 * D - 1 downto D
      invariant Act(coeffs[..], One) == Act(old(coeffs[..]), One)
      invariant forall k :: i <= k < 2 * D - 1 ==> coeffs[k] == 0
    {
      ghost var s := coeffs[..];
      var t := coeffs[i];
      coeffs[i] := 0;
      coeffs[i - D] := Sub(coeffs[i - D], t);
      var idx27 := i - 27;
      if idx27 < D {
        coeffs[idx27] := Sub(coeffs[idx27], t);
      } else {
        coeffs[idx27 - D] := Add(coeffs[idx27 - D], t);
        if idx27 - 27 < D {
          coeffs[idx27 - 27] := Add(coeffs[idx27 - 27], t);
        }
      }
      assert coeffs[..] == ReduceStep(s, i);
      ReduceStepKeeps(s, i);
    }
    ghost var s := coeffs[..];
    assert s == s[..D] + Zeros(D - 1);
    ActAppend(s[..D], Zeros(D - 1), One);
    ActLeftZeros(D - 1, ShiftN(D, One));
    ActOne(s[..D]);
    PlusZeros(s[..D]);
  }

  // ----- convolution is bilinear and splits over concatenation -----

  lemma {:induction false} ConvLeftPlus(a: Vec, d: Vec, b: Vec, k: int, i: nat)
    requires |a| == |d| && i <= |a|
    ensures Conv(Plus(a, d), b, k, i) == Add(Conv(a, b, k, i), Conv(d, b, k, i))
  {
    if i != 0 {
      var n := k - (i - 1);
      ConvLeftPlus(a, d, b, k, i - 1);
      if 0 <= n < |b| {
        MulAdd(b[n], a[i - 1], d[i - 1]);
      }
      AddSwap(Conv(a, b, k, i - 1), Conv(d, b, k, i - 1), ConvTerm(a, b, k, i - 1), ConvTerm(d, b, k, i - 1));
      hide Mul;
    }
  }

  lemma {:induction false} ConvLeftScale(c: Fq, a: Vec, b: Vec, k: int, i: nat)
    requires i <= |a|
    ensures Conv(Scale(c, a), b, k, i) == Mul(c, Conv(a, b, k, i))
  {
    hide Mul, Add;
    MulOne(c);
    if i != 0 {
      var n := k - (i - 1);
      ConvLeftScale(c, a, b, k, i - 1);
      if 0 <= n < |b| {
        MulAssoc(c, a[i - 1], b[n]);
      }
      MulAdd(c, Conv(a, b, k, i - 1), ConvTerm(a, b, k, i - 1));
    }
  }

  lemma {:induction false} ConvRightPlus(a: Vec, b: Vec, d: Vec, k: int, i: nat)
    requires |b| == |d| && i <= |a|
    ensures Conv(a, Plus(b, d), k, i) == Add(Conv(a, b, k, i), Conv(a, d, k, i))
  {
    if i != 0 {
      var n := k - (i - 1);
      ConvRightPlus(a, b, d, k, i - 1);
      if 0 <= n < |b| {
        MulAdd(a[i - 1], b[n], d[n]);
      }
      AddSwap(Conv(a, b, k, i - 1), Conv(a, d, k, i - 1), ConvTerm(a, b, k, i - 1), ConvTerm(a, d, k, i - 1));
      hide Mul;
    }
  }

  lemma {:induction false} ConvRightScale(c: Fq, a: Vec, b: Vec, k: int, i: nat)
    requires i <= |a|
    ensures Conv(a, Scale(c, b), k, i) == Mul(c, Conv(a, b, k, i))
  {
    MulOne(c);
    hide Mul, Add;
    if i != 0 {
      ConvRightScale(c, a, b, k, i - 1);
      MulAdd(c, Conv(a, b, k, i - 1), ConvTerm(a, b, k, i - 1));
      ConvTermScale(c, a, b, k, i - 1);
    }
  }

  lemma ConvTermScale(c: Fq, a: Vec, b: Vec, k: int, i: nat)
    requires i < |a|
    ensures ConvTerm(a, Scale(c, b), k, i) == Mul(c, ConvTerm(a, b, k, i))
  {
    hide Mul;
    MulOne(c);
    var n := k - i;
    if 0 <= n < |b| {
      MulAssoc(a[i], c, b[n]);
      MulAssoc(c, a[i], b[n]);
      MulComm(a[i], c);
    }
  }

  lemma {:induction false} ConvLeftAppend(x: Vec, y: Vec, b: Vec, k: int, i: nat)
    requires i <= |x| + |y|
    ensures Conv(x + y, b, k, i)
         == if i <= |x| then Conv(x, b, k, i) else Add(Conv(x, b, k, |x|), Conv(y, b, k - |x|, i - |x|))
  {
    if i != 0 {
      ConvLeftAppend(x, y, b, k, i - 1);
      if i > |x| {
        AddAssoc(Conv(x, b, k, |x|), Conv(y, b, k - |x|, i - 1 - |x|), ConvTerm(y, b, k - |x|, i - 1 - |x|));
      }
      hide Mul;
    }
  }

  lemma {:induction false} ConvRightAppend(a: Vec, x: Vec, y: Vec, k: int, i: nat)
    requires i <= |a|
    ensures Conv(a, x + y, k, i) == Add(Conv(a, x, k, i), Conv(a, y, k - |x|, i))
  {
    if i != 0 {
      ConvRightAppend(a, x, y, k, i - 1);
      hide Mul;
    }
  }

  lemma {:induction false} ConvOutside(a: Vec, b: Vec, k: int, i: nat)
    requires i <= |a|
    requires k < 0 || k >= i + |b| - 1
    requires |b| > 0
    ensures Conv(a, b, k, i) == 0
  {
    if i != 0 {
      ConvOutside(a, b, k, i - 1);
    }
  }

  // ----- evaluation and interpolation at 0, 1, -1, 2, infinity -----

  /** The three chunks of an operand. */
  datatype Chunks = Chunks(c0: Vec, c1: Vec, c2: Vec) {
    ghost predicate Valid() { |c0| == |c1| == |c2| == SPLIT }

    function At(s: Fq): (v: Vec)
      requires Valid()
      ensures |v| == SPLIT
    {
      Plus(Plus(c0, Scale(s, c1)), Scale(Mul(s, s), c2))
    }
  }

  function ChunksOf(a: Rq): Chunks {
    Chunks(a[..SPLIT], a[SPLIT..2 * SPLIT], a[2 * SPLIT..])
  }

  /** The sum of the coefficients n of a_i * b_j over i + j == m: chunk m of the product, before reduction. */
  function ChunkSum(a: Chunks, b: Chunks, m: nat, n: int): int
    requires a.Valid() && b.Valid()
  {
    match m
    case 0 => Conv(a.c0, b.c0, n, SPLIT)
    case 1 => Conv(a.c0, b.c1, n, SPLIT) + Conv(a.c1, b.c0, n, SPLIT)
    case 2 => Conv(a.c0, b.c2, n, SPLIT) + Conv(a.c1, b.c1, n, SPLIT) + Conv(a.c2, b.c0, n, SPLIT)
    case 3 => Conv(a.c1, b.c2, n, SPLIT) + Conv(a.c2, b.c1, n, SPLIT)
    case 4 => Conv(a.c2, b.c2, n, SPLIT)
    case _ => 0
  }

  lemma RedQuadratic(s: int, u0: int, u1: int, u2: int)
    ensures Add(Add(Red(u0), Mul(Red(s), Red(u1))), Mul(Mul(Red(s), Red(s)), Red(u2)))
         == Red(u0 + s * u1 + s * s * u2)
  {
    RedMul(s, u1);
    RedMul(s, s);
    RedMul(s * s, u2);
    RedAdd(u0, s * u1);
    RedAdd(u0 + s * u1, s * s * u2);
    hide Red, Mul, Add;
  }

  lemma ConvLeftAt(a: Chunks, s: int, w: Vec, n: int)
    requires a.Valid()
    ensures Conv(a.At(Red(s)), w, n, SPLIT)
         == Red(Conv(a.c0, w, n, SPLIT) + s * Conv(a.c1, w, n, SPLIT) + s * s * Conv(a.c2, w, n, SPLIT))
  {
    hide Red, Mul, Add, Conv;
    var r := Red(s);
    ConvLeftPlus(Plus(a.c0, Scale(r, a.c1)), Scale(Mul(r, r), a.c2), w, n, SPLIT);
    ConvLeftPlus(a.c0, Scale(r, a.c1), w, n, SPLIT);
    ConvLeftScale(r, a.c1, w, n, SPLIT);
    ConvLeftScale(Mul(r, r), a.c2, w, n, SPLIT);
    var u0, u1, u2 := Conv(a.c0, w, n, SPLIT), Conv(a.c1, w, n, SPLIT), Conv(a.c2, w, n, SPLIT);
    RedCanonical(u0);
    RedCanonical(u1);
    RedCanonical(u2);
    RedQuadratic(s, u0, u1, u2);
  }

  lemma ConvRightAt(w: Vec, b: Chunks, s: int, n: int)
    requires b.Valid() && |w| == SPLIT
    ensures Conv(w, b.At(Red(s)), n, SPLIT)
         == Red(Conv(w, b.c0, n, SPLIT) + s * Conv(w, b.c1, n, SPLIT) + s * s * Conv(w, b.c2, n, SPLIT))
  {
    hide Red, Mul, Add, Conv;
    var r := Red(s);
    ConvRightPlus(w, Plus(b.c0, Scale(r, b.c1)), Scale(Mul(r, r), b.c2), n, SPLIT);
    ConvRightPlus(w, b.c0, Scale(r, b.c1), n, SPLIT);
    ConvRightScale(r, w, b.c1, n, SPLIT);
    ConvRightScale(Mul(r, r), w, b.c2, n, SPLIT);
    var u0, u1, u2 := Conv(w, b.c0, n, SPLIT), Conv(w, b.c1, n, SPLIT), Conv(w, b.c2, n, SPLIT);
    RedCanonical(u0);
    RedCanonical(u1);
    RedCanonical(u2);
    RedQuadratic(s, u0, u1, u2);
  }

  /** The value at s, s in {1, -1, 2}, of the polynomial with the given coefficients. */
  ghost function ValueAt(s: int, e0: int, e1: int, e2: int, e3: int, e4: int): int {
    if s == 1 then e0 + e1 + e2 + e3 + e4
    else if s == -1 then e0 - e1 + e2 - e3 + e4
    else e0 + 2 * e1 + 4 * e2 + 8 * e3 + 16 * e4
  }

  /** The product of the two operands' values at s is the value at s of the product. */
  lemma EvaluationPoint(a: Chunks, b: Chunks, s: int, n: int)
    requires a.Valid() && b.Valid() && (s == 1 || s == -1 || s == 2)
    ensures Conv(a.At(Red(s)), b.At(Red(s)), n, SPLIT)
         == Red(ValueAt(s, ChunkSum(a, b, 0, n), ChunkSum(a, b, 1, n), ChunkSum(a, b, 2, n),
                        ChunkSum(a, b, 3, n), ChunkSum(a, b, 4, n)))
  {
    hide Red, Mul, Add, Conv;
    var w := b.At(Red(s));
    ConvLeftAt(a, s, w, n);
    ConvRightAt(a.c0, b, s, n);
    ConvRightAt(a.c1, b, s, n);
    ConvRightAt(a.c2, b, s, n);
    var x := (u: Vec, v: Vec) requires |u| == SPLIT => Conv(u, v, n, SPLIT);
    var y0 := x(a.c0, b.c0) + s * x(a.c0, b.c1) + s * s * x(a.c0, b.c2);
    var y1 := x(a.c1, b.c0) + s * x(a.c1, b.c1) + s * s * x(a.c1, b.c2);
    var y2 := x(a.c2, b.c0) + s * x(a.c2, b.c1) + s * s * x(a.c2, b.c2);
    RedQuadratic(s, Red(y0), Red(y1), Red(y2));
    RedQuadratic(s, y0, y1, y2);
    RedCanonical(Red(y0));
    RedCanonical(Red(y1));
    RedCanonical(Red(y2));
  }

  lemma HalfSixth(x: int)
    ensures Mul(HALF, Red(2 * x)) == Red(x)
    ensures Mul(SIXTH, Red(6 * x)) == Red(x)
  {
    RedUnique(HALF, 0, HALF);
    RedUnique(SIXTH, 0, SIXTH);
    RedMul(HALF, 2 * x);
    RedMul(SIXTH, 6 * x);
    var k := RedSplit(x);
    RedUnique(HALF * (2 * x), k + x, Red(x));
    RedUnique(SIXTH * (6 * x), k + 5 * x, Red(x));
  }

  /** Coefficients 1, 2, 3 from the values at 0, 1, -1, 2 and infinity, as the code computes them. */
  function Interpolated(p0: Fq, p1: Fq, pm1: Fq, p2: Fq, p4: Fq): (c: (Fq, Fq, Fq)) {
    var c2 := Sub(Sub(Mul(HALF, Add(p1, pm1)), p0), p4);
    var s := Mul(HALF, Sub(p1, pm1));
    var c3 := Mul(SIXTH, Sub(Sub(Sub(Sub(p2, p0), Mul(4, c2)), Mul(16, p4)), Mul(2, s)));
    (Sub(s, c3), c2, c3)
  }

  lemma Interpolation(e0: int, e1: int, e2: int, e3: int, e4: int)
    ensures Interpolated(Red(e0), Red(ValueAt(1, e0, e1, e2, e3, e4)), Red(ValueAt(-1, e0, e1, e2, e3, e4)),
                         Red(ValueAt(2, e0, e1, e2, e3, e4)), Red(e4))
         == (Red(e1), Red(e2), Red(e3))
  {
    hide Mul, Red, Add, Sub;
    var f := e0 + e1 + e2 + e3 + e4;
    var g := e0 - e1 + e2 - e3 + e4;
    RedAdd(f, g);
    assert f + g == 2 * (e0 + e2 + e4) && f - g == 2 * (e1 + e3);
    HalfSixth(e0 + e2 + e4);
    HalfSixth(e1 + e3);
    RedAdd(e0 + e2 + e4, e0);
    RedAdd(e2 + e4, e4);
    RedSmall(e2, 4);
    RedSmall(e4, 16);
    RedSmall(e1 + e3, 2);
    var h := e0 + 2 * e1 + 4 * e2 + 8 * e3 + 16 * e4;
    RedAdd(h, e0);
    RedAdd(h - e0, 4 * e2);
    RedAdd(h - e0 - 4 * e2, 16 * e4);
    RedAdd(h - e0 - 4 * e2 - 16 * e4, 2 * (e1 + e3));
    assert h - e0 - 4 * e2 - 16 * e4 - 2 * (e1 + e3) == 6 * e3;
    HalfSixth(e3);
    RedAdd(e1 + e3, e3);
  }

  lemma RedSmall(x: int, c: Fq)
    ensures Mul(c, Red(x)) == Red(c * x)
  {
    RedCanonical(c);
    RedMul(c, x);
  }

  // ----- the product method -----

  function CoeffAt(p: Vec, n: int): Fq { if 0 <= n < |p| then p[n] else 0 }

  method MulSchoolbookChunk(lhs: Vec, rhs: Vec) returns (out: Vec)
    requires |lhs| == |rhs| == SPLIT
    ensures out == PolyTimes(lhs, rhs)
  {
    out := Zeros(CHUNK_OUT);
    for i := 0 to SPLIT
      invariant out == PartialProduct(lhs, rhs, i)
    {
      ghost var before := out;
      for j := 0 to SPLIT
        invariant |out| == CHUNK_OUT
        invariant forall k :: 0 <= k < CHUNK_OUT ==>
          out[k] == if i <= k < i + j then Conv(lhs, rhs, k, i + 1) else Conv(lhs, rhs, k, i)
      {
        out := out[i + j := Add(out[i + j], Mul(lhs[i], rhs[j]))];
      }
    }
  }

  method AddAssignChunkAt(dst: array<Fq>, offset: nat, src: Vec)
    requires offset + |src| <= dst.Length
    modifies dst
    ensures forall k :: 0 <= k < dst.Length ==> dst[k] == Add(old(dst[k]), CoeffAt(src, k - offset))
  {
    for i := 0 to |src|
      invariant forall k :: 0 <= k < dst.Length ==>
        dst[k] == if offset <= k < offset + i then Add(old(dst[k]), src[k - offset]) else old(dst[k])
    {
      dst[offset + i] := Add(dst[offset + i], src[i]);
    }
  }

  /** Interpolated chunk m of the product. */
  ghost predicate IsChunk(c: Vec, a: Chunks, b: Chunks, m: nat)
    requires a.Valid() && b.Valid()
  {
    |c| == CHUNK_OUT && forall n :: 0 <= n < CHUNK_OUT ==> c[n] == Red(ChunkSum(a, b, m, n))
  }

  lemma ChunkOutside(a: Chunks, b: Chunks, m: nat, n: int)
    requires a.Valid() && b.Valid() && (n < 0 || n >= CHUNK_OUT)
    ensures ChunkSum(a, b, m, n) == 0
  {
    forall u: Vec, v: Vec | |u| == |v| == SPLIT
      ensures Conv(u, v, n, SPLIT) == 0
    {
      ConvOutside(u, v, n, SPLIT);
    }
  }

  lemma ChunkCoeffAt(c: Vec, a: Chunks, b: Chunks, m: nat, n: int)
    requires a.Valid() && b.Valid() && IsChunk(c, a, b, m)
    ensures CoeffAt(c, n) == Red(ChunkSum(a, b, m, n))
  {
    if n < 0 || n >= CHUNK_OUT {
      ChunkOutside(a, b, m, n);
      RedCanonical(0);
    }
  }

  /** The coefficients of a * b are those of the five chunks placed 18 apart. */
  lemma ProductByChunks(a: Rq, b: Rq, k: int)
    ensures Conv(a, b, k, D)
         == var (u, v) := (ChunksOf(a), ChunksOf(b));
            Red(ChunkSum(u, v, 0, k) + ChunkSum(u, v, 1, k - 18) + ChunkSum(u, v, 2, k - 36)
                + ChunkSum(u, v, 3, k - 54) + ChunkSum(u, v, 4, k - 72))
  {
    hide Red, Mul, Add, Conv;
    var u, v := ChunksOf(a), ChunksOf(b);
    var a12 := u.c1 + u.c2;
    assert a == u.c0 + a12;
    ConvLeftAppend(u.c0, a12, b, k, D);
    ConvLeftAppend(u.c1, u.c2, b, k - 18, 36);
    var x := (w: Vec, y: Vec, n: int) requires |w| == SPLIT => Conv(w, y, n, SPLIT);
    RowByChunks(u.c0, b, k);
    RowByChunks(u.c1, b, k - 18);
    RowByChunks(u.c2, b, k - 36);
    var s0 := x(u.c0, v.c0, k) + x(u.c0, v.c1, k - 18) + x(u.c0, v.c2, k - 36);
    var s1 := x(u.c1, v.c0, k - 18) + x(u.c1, v.c1, k - 36) + x(u.c1, v.c2, k - 54);
    var s2 := x(u.c2, v.c0, k - 36) + x(u.c2, v.c1, k - 54) + x(u.c2, v.c2, k - 72);
    RedAdd(s1, s2);
    RedAdd(s0, s1 + s2);
  }

  lemma RowByChunks(w: Vec, b: Rq, k: int)
    requires |w| == SPLIT
    ensures Conv(w, b, k, SPLIT)
         == var v := ChunksOf(b);
            Red(Conv(w, v.c0, k, SPLIT) + Conv(w, v.c1, k - 18, SPLIT) + Conv(w, v.c2, k - 36, SPLIT))
  {
    hide Red, Mul, Add, Conv;
    var v := ChunksOf(b);
    var b12 := v.c1 + v.c2;
    assert b == v.c0 + b12;
    ConvRightAppend(w, v.c0, b12, k, SPLIT);
    ConvRightAppend(w, v.c1, v.c2, k - 18, SPLIT);
    var p: int, q: int, r: int := Conv(w, v.c0, k, SPLIT), Conv(w, v.c1, k - 18, SPLIT), Conv(w, v.c2, k - 36, SPLIT);
    RedCanonical(p);
    RedCanonical(q);
    RedCanonical(r);
    RedAdd(q, r);
    RedAdd(p, q + r);
  }

  /** What the chunk arithmetic of the code yields on the five point values. */
  lemma InterpolatedChunks(a: Chunks, b: Chunks, p0: Vec, p1: Vec, pm1: Vec, p2: Vec, p4: Vec)
    returns (c1: Vec, c2: Vec, c3: Vec)
    requires a.Valid() && b.Valid()
    requires p0 == PolyTimes(a.c0, b.c0) && p4 == PolyTimes(a.c2, b.c2)
    requires p1 == PolyTimes(a.At(1), b.At(1))
    requires pm1 == PolyTimes(a.At(Red(-1)), b.At(Red(-1)))
    requires p2 == PolyTimes(a.At(2), b.At(2))
    ensures |c1| == |c2| == |c3| == CHUNK_OUT
    ensures c2 == Minus(Minus(Scale(HALF, Plus(p1, pm1)), p0), p4)
    ensures var s := Scale(HALF, Minus(p1, pm1));
            c3 == Scale(SIXTH, Minus(Minus(Minus(Minus(p2, p0), Scale(4, c2)), Scale(16, p4)), Scale(2, s)))
            && c1 == Minus(s, c3)
    ensures IsChunk(p0, a, b, 0) && IsChunk(c1, a, b, 1) && IsChunk(c2, a, b, 2)
    ensures IsChunk(c3, a, b, 3) && IsChunk(p4, a, b, 4)
  {
    var s := Scale(HALF, Minus(p1, pm1));
    c2 := Minus(Minus(Scale(HALF, Plus(p1, pm1)), p0), p4);
    c3 := Scale(SIXTH, Minus(Minus(Minus(Minus(p2, p0), Scale(4, c2)), Scale(16, p4)), Scale(2, s)));
    c1 := Minus(s, c3);
    forall n | 0 <= n < CHUNK_OUT
      ensures p0[n] == Red(ChunkSum(a, b, 0, n)) && c1[n] == Red(ChunkSum(a, b, 1, n))
      ensures c2[n] == Red(ChunkSum(a, b, 2, n)) && c3[n] == Red(ChunkSum(a, b, 3, n))
      ensures p4[n] == Red(ChunkSum(a, b, 4, n))
    {
      CoefficientInterpolated(a, b, n);
    }
  }

  lemma CoefficientInterpolated(a: Chunks, b: Chunks, n: nat)
    requires a.Valid() && b.Valid() && n < CHUNK_OUT
    ensures Interpolated(Conv(a.c0, b.c0, n, SPLIT), Conv(a.At(1), b.At(1), n, SPLIT),
                         Conv(a.At(Red(-1)), b.At(Red(-1)), n, SPLIT), Conv(a.At(2), b.At(2), n, SPLIT),
                         Conv(a.c2, b.c2, n, SPLIT))
         == (Red(ChunkSum(a, b, 1, n)), Red(ChunkSum(a, b, 2, n)), Red(ChunkSum(a, b, 3, n)))
    ensures Conv(a.c0, b.c0, n, SPLIT) == Red(ChunkSum(a, b, 0, n))
    ensures Conv(a.c2, b.c2, n, SPLIT) == Red(ChunkSum(a, b, 4, n))
  {
    RedUnique(1, 0, 1);
    RedUnique(2, 0, 2);
    RedCanonical(Conv(a.c0, b.c0, n, SPLIT));
    RedCanonical(Conv(a.c2, b.c2, n, SPLIT));
    hide Red, Mul, Add, Sub, Conv, Interpolated;
    EvaluationPoint(a, b, 1, n);
    EvaluationPoint(a, b, -1, n);
    EvaluationPoint(a, b, 2, n);
    Interpolation(ChunkSum(a, b, 0, n), ChunkSum(a, b, 1, n), ChunkSum(a, b, 2, n),
                  ChunkSum(a, b, 3, n), ChunkSum(a, b, 4, n));
  }

  lemma PointOperands(a: Chunks)
    requires a.Valid()
    ensures a.At(1) == Plus(Plus(a.c0, a.c1), a.c2)
    ensures a.At(Red(-1)) == Plus(Minus(a.c0, a.c1), a.c2)
    ensures a.At(2) == Plus(Plus(a.c0, Scale(2, a.c1)), Scale(4, a.c2))
  {
    MulOne(1);
    ScaleOne(a.c1);
    ScaleOne(a.c2);
    var m := Red(-1);
    RedUnique(-1, -1, Q - 1);
    RedUnique(1, 0, 1);
    RedMul(-1, -1);
    RedUnique(2, 0, 2);
    RedUnique(4, 0, 4);
    RedMul(2, 2);
    assert Plus(a.c0, Scale(m, a.c1)) == Minus(a.c0, a.c1) by {
      forall i | 0 <= i < SPLIT
        ensures Add(a.c0[i], Mul(m, a.c1[i])) == Sub(a.c0[i], a.c1[i])
      {
        MulNeg(1, a.c1[i]);
        MulOne(a.c1[i]);
        hide Mul;
      }
    }
  }

  /** The five pointwise chunk products. */
  method PointProducts(lhs: Rq, rhs: Rq) returns (p0: Vec, p1: Vec, pm1: Vec, p2: Vec, p4: Vec)
    ensures var (a, b) := (ChunksOf(lhs), ChunksOf(rhs));
            && p0 == PolyTimes(a.c0, b.c0) && p1 == PolyTimes(a.At(1), b.At(1))
            && pm1 == PolyTimes(a.At(Red(-1)), b.At(Red(-1)))
            && p2 == PolyTimes(a.At(2), b.At(2)) && p4 == PolyTimes(a.c2, b.c2)
  {
    hide PolyTimes, Scale, Red;
    var a, b := ChunksOf(lhs), ChunksOf(rhs);
    var a012 := Plus(Plus(a.c0, a.c1), a.c2);
    var b012 := Plus(Plus(b.c0, b.c1), b.c2);
    var am1 := Plus(Minus(a.c0, a.c1), a.c2);
    var bm1 := Plus(Minus(b.c0, b.c1), b.c2);
    var a2eval := Plus(Plus(a.c0, Scale(2, a.c1)), Scale(4, a.c2));
    var b2eval := Plus(Plus(b.c0, Scale(2, b.c1)), Scale(4, b.c2));
    PointOperands(a);
    PointOperands(b);
    hide Chunks.At, Plus, Minus;
    p0 := MulSchoolbookChunk(a.c0, b.c0);
    p1 := MulSchoolbookChunk(a012, b012);
    pm1 := MulSchoolbookChunk(am1, bm1);
    p2 := MulSchoolbookChunk(a2eval, b2eval);
    p4 := MulSchoolbookChunk(a.c2, b.c2);
  }

  /** `mul_3way_karatsuba_54` computes the coefficients of the polynomial product. */
  method Mul3WayKaratsuba54(lhs: Rq, rhs: Rq) returns (out: array<Fq>)
    ensures fresh(out) && out.Length == 2 * D - 1
    ensures out[..] == PolyTimes(lhs, rhs)
  {
    var p0, p1, pm1, p2, p4 := PointProducts(lhs, rhs);
    var c0, c4 := p0, p4;
    var c2 := Scale(HALF, Plus(p1, pm1));
    c2 := Minus(c2, c0);
    c2 := Minus(c2, c4);
    var s := Scale(HALF, Minus(p1, pm1));
    var c3 := Minus(p2, c0);
    c3 := Minus(c3, Scale(4, c2));
    c3 := Minus(c3, Scale(16, c4));
    c3 := Scale(SIXTH, Minus(c3, Scale(2, s)));
    var c1 := Minus(s, c3);
    ghost var g1, g2, g3 := InterpolatedChunks(ChunksOf(lhs), ChunksOf(rhs), p0, p1, pm1, p2, p4);
    out := PlaceChunks(lhs, rhs, c0, c1, c2, c3, c4);
  }

  /** Adds the five chunks of the product at their offsets. */
  method PlaceChunks(ghost lhs: Rq, ghost rhs: Rq, c0: Vec, c1: Vec, c2: Vec, c3: Vec, c4: Vec) returns (out: array<Fq>)
    requires var (a, b) := (ChunksOf(lhs), ChunksOf(rhs));
             IsChunk(c0, a, b, 0) && IsChunk(c1, a, b, 1) && IsChunk(c2, a, b, 2)
             && IsChunk(c3, a, b, 3) && IsChunk(c4, a, b, 4)
    ensures fresh(out) && out.Length == 2 * D - 1
    ensures out[..] == PolyTimes(lhs, rhs)
  {
    out := new Fq[2 * D - 1](i => 0);
    AddAssignChunkAt(out, 0, c0);
    AddAssignChunkAt(out, SPLIT, c1);
    AddAssignChunkAt(out, 2 * SPLIT, c2);
    AddAssignChunkAt(out, 3 * SPLIT, c3);
    AddAssignChunkAt(out, 4 * SPLIT, c4);
    forall k | 0 <= k < 2 * D - 1
      ensures out[k] == Conv(lhs, rhs, k, D)
    {
      assert out[k] == Add(Add(Add(Add(Add(0, CoeffAt(c0, k)), CoeffAt(c1, k - 18)), CoeffAt(c2, k - 36)),
                               CoeffAt(c3, k - 54)), CoeffAt(c4, k - 72));
      ChunksPlaced(lhs, rhs, c0, c1, c2, c3, c4, k);
    }
  }

  lemma ChunksPlaced(lhs: Rq, rhs: Rq, c0: Vec, c1: Vec, c2: Vec, c3: Vec, c4: Vec, k: nat)
    requires var (a, b) := (ChunksOf(lhs), ChunksOf(rhs));
             IsChunk(c0, a, b, 0) && IsChunk(c1, a, b, 1) && IsChunk(c2, a, b, 2)
             && IsChunk(c3, a, b, 3) && IsChunk(c4, a, b, 4)
    ensures Add(Add(Add(Add(Add(0, CoeffAt(c0, k)), CoeffAt(c1, k - 18)), CoeffAt(c2, k - 36)),
                    CoeffAt(c3, k - 54)), CoeffAt(c4, k - 72)) == Conv(lhs, rhs, k, D)
  {
    var a, b := ChunksOf(lhs), ChunksOf(rhs);
    ChunkCoeffAt(c0, a, b, 0, k);
    ChunkCoeffAt(c1, a, b, 1, k - 18);
    ChunkCoeffAt(c2, a, b, 2, k - 36);
    ChunkCoeffAt(c3, a, b, 3, k - 54);
    ChunkCoeffAt(c4, a, b, 4, k - 72);
    ProductByChunks(lhs, rhs, k);
    RedSum(ChunkSum(a, b, 0, k), ChunkSum(a, b, 1, k - 18), ChunkSum(a, b, 2, k - 36),
           ChunkSum(a, b, 3, k - 54), ChunkSum(a, b, 4, k - 72));
    hide Red, Add, Conv, CoeffAt, ChunkSum;
  }

  lemma RedSum(e0: int, e1: int, e2: int, e3: int, e4: int)
    ensures Add(Add(Add(Add(Add(0, Red(e0)), Red(e1)), Red(e2)), Red(e3)), Red(e4)) == Red(e0 + e1 + e2 + e3 + e4)
  {
    assert Add(0, Red(e0)) == Red(e0);
    hide Red, Add;
    RedAdd(e0, e1);
    RedAdd(e0 + e1, e2);
    RedAdd(e0 + e1 + e2, e3);
    RedAdd(e0 + e1 + e2 + e3, e4);
  }

  /** `Rq::mul` is multiplication in R_q. */
  method MulRq(lhs: Rq, rhs: Rq) returns (out: Rq)
    ensures out == Times(lhs, rhs)
  {
    var tmp := Mul3WayKaratsuba54(lhs, rhs);
    ReduceModPhi81(tmp);
    TimesIsReducedProduct(lhs, rhs);
    out := tmp[..D];
  }
}
