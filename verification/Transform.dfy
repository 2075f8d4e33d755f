/** The constant-term inner product of the ring and the `bar` transform that inverts its Gram matrix. */
module Transform {
  import opened Field
  import opened Vectors
  import opened Ring
  import opened Polynomials
  import opened Rotations
  import opened Multiply
  import opened Matrices

  /** `ct`. */
  function Ct(a: Rq): Fq { a[0] }

  /** Row i of the Gram matrix: the constant terms of X^i X^j. */
  function GramRow(i: nat): (v: Vec)
    requires i < D
    ensures |v| == D
  {
    seq(D, j requires 0 <= j < D => Ct(Times(Mono(i), Mono(j))))
  }

  function Gram(): (g: Matrix)
    ensures Square(g, D)
  {
    seq(D, i requires 0 <= i < D => GramRow(i))
  }

  /** `build_ct_gram_matrix`. */
  method BuildCtGramMatrix() returns (g: Matrix)
    ensures g == Gram()
  {
    hide Times;
    g := [];
    for i := 0 to D
      invariant |g| == i && forall k :: 0 <= k < i ==> g[k] == GramRow(k)
    {
      var row: Vec := [];
      for j := 0 to D
        invariant |row| == j && forall k :: 0 <= k < j ==> row[k] == Ct(Times(Mono(i), Mono(k)))
      {
        var prod := MulRq(Mono(i), Mono(j));
        row := row + [Ct(prod)];
      }
      g := g + [row];
    }
  }

  lemma MonoTimes(i: nat, u: Rq)
    requires i < D
    ensures Times(Mono(i), u) == ShiftN(i, u)
  {
    TimesComm(Mono(i), u);
    TimesMono(u, i);
  }

  lemma GramIsRotationRow(i: nat)
    requires i < D
    ensures GramRow(i) == RowOf(Rot(Mono(i)), 0)
  {
    forall j | 0 <= j < D
      ensures Ct(Times(Mono(i), Mono(j))) == ShiftN(j, Mono(i))[0]
    {
      TimesComm(Mono(i), Mono(j));
      MonoTimes(j, Mono(i));
    }
  }

  /** Applying the Gram matrix lists the constant terms of X^i u. */
  lemma GramApplied(u: Rq, i: nat)
    requires i < D
    ensures MatVec(Gram(), u)[i] == ShiftN(i, u)[0]
  {
    GramIsRotationRow(i);
    RotActsAsTimes(Mono(i), u, 0);
    MonoTimes(i, u);
  }

  /** Constant terms of the shifts, coefficient by coefficient. */
  lemma CtOfShift(u: Rq, j: nat)
    requires j < D
    ensures ShiftN(j, u)[0] == if j == 0 then u[0] else if j <= H then Neg(u[D - j])
                               else Sub(u[D + H - j], u[D - j])
  {
    if j <= H {
      RotatedIsShiftN(j, u);
    } else {
      ShiftNSum(H, j - H, u);
      RotatedIsShiftN(j - H, u);
      RotatedIsShiftN(H, ShiftN(j - H, u));
    }
  }

  /** The Gram matrix is never singular, so `superneo_bar_matrix` never panics. */
  lemma GramKernelTrivial()
    ensures KernelTrivial(Gram(), D)
  {
    hide Gram;
    forall x: Vec | |x| == D && Kills(Gram(), D, x)
      ensures x == Zeros(D)
    {
      forall j | 0 <= j < D
        ensures ShiftN(j, x)[0] == 0
      {
        GramApplied(x, j);
      }
      NoCtIsZero(x);
    }
  }

  lemma NoCtIsZero(x: Rq)
    requires forall j :: 0 <= j < D ==> ShiftN(j, x)[0] == 0
    ensures x == Zeros(D)
  {
    forall k | 0 <= k < D
      ensures x[k] == 0
    {
      if k == 0 {
        CtOfShift(x, 0);
      } else {
        CtOfShift(x, D - k);
        if k < H {
          CtOfShift(x, H - k);
        }
      }
    }
  }

  lemma GramSymmetric(i: nat, j: nat)
    requires i < D && j < D
    ensures Gram()[i][j] == Gram()[j][i]
  {
    TimesComm(Mono(i), Mono(j));
  }

  /** `build_superneo_bar_matrix`: the elimination succeeds and returns the inverse of the Gram matrix. */
  method BuildSuperneoBarMatrix() returns (m: Matrix)
    ensures IsInverse(m, Gram(), D)
  {
    hide KernelTrivial, IsInverse, Gram;
    var g := BuildCtGramMatrix();
    GramKernelTrivial();
    var some, inverse := InvertMatrix(g, D);
    m := inverse;
  }

  /** Transpose dot: column i of m with column j of g. */
  function ColumnDot(m: Matrix, i: nat, g: Matrix, j: nat, n: nat): Fq
    requires Square(m, D) && Square(g, D) && i < D && j < D && n <= D
  {
    if n == 0 then 0 else Add(ColumnDot(m, i, g, j, n - 1), Mul(m[n - 1][i], g[n - 1][j]))
  }

  lemma {:induction false} ColumnDotIsRowDot(m: Matrix, i: nat, g: Matrix, j: nat, n: nat)
    requires Square(m, D) && g == Gram() && i < D && j < D && n <= D
    ensures ColumnDot(m, i, g, j, n) == Dot(g[j], MatVec(m, Unit(D, i)), n)
  {
    hide Mul, Add, Gram;
    if n != 0 {
      ColumnDotIsRowDot(m, i, g, j, n - 1);
      GramSymmetric(n - 1, j);
      MulComm(m[n - 1][i], g[n - 1][j]);
      DotComm(m[n - 1], Unit(D, i), D);
      DotUnit(m[n - 1], D, i, D);
    }
  }

  /** The sanity check of the code, M^T G == I, holds for the inverse it computed. */
  lemma SanityCheckPasses(m: Matrix, i: nat, j: nat)
    requires IsInverse(m, Gram(), D) && i < D && j < D
    ensures ColumnDot(m, i, Gram(), j, D) == if i == j then 1 else 0
  {
    ColumnDotIsRowDot(m, i, Gram(), j, D);
    assert MatVec(Gram(), MatVec(m, Unit(D, i))) == Unit(D, i);
    assert MatVec(Gram(), MatVec(m, Unit(D, i)))[j] == Unit(D, i)[j];
  }

  /** The transform in coefficients. */
  function Bar(a: Rq): (u: Rq) {
    seq(D, k requires 0 <= k < D => BarAt(a, k))
  }

  function BarAt(a: Rq, k: nat): Fq
    requires k < D
  {
    if k == 0 then a[0]
    else if k < H then Sub(Neg(a[H - k]), a[D - k])
    else Neg(a[D - k])
  }

  lemma BarInvertsGram(a: Rq)
    ensures MatVec(Gram(), Bar(a)) == a
  {
    hide Gram;
    var u := Bar(a);
    forall j | 0 <= j < D
      ensures MatVec(Gram(), u)[j] == a[j]
    {
      GramApplied(u, j);
      CtOfShift(u, j);
      if j > H {
        assert u[D + H - j] == Neg(a[j - H]);
        assert u[D - j] == Sub(Neg(a[j - H]), a[j]);
      }
    }
  }

  /** Every inverse of the Gram matrix computes the same transform. */
  lemma BarOfInverse(m: Matrix, a: Rq)
    requires IsInverse(m, Gram(), D)
    ensures MatVec(m, a) == Bar(a)
  {
    BarInvertsGram(a);
    assert MatVec(m, MatVec(Gram(), Bar(a))) == Bar(a);
  }

  /** `superneo_bar_block`. */
  method SuperneoBarBlock(v: Rq) returns (out: Rq)
    ensures out == Bar(v)
  {
    hide IsInverse, Gram, Bar, Mul, Add;
    var m := BuildSuperneoBarMatrix();
    BarOfInverse(m, v);
    InverseIsSquare(m);
    var r: Vec := [];
    for row := 0 to D
      invariant |r| == row && forall k :: 0 <= k < row ==> r[k] == Dot(m[k], v, D)
    {
      var acc: Fq := 0;
      for col := 0 to D
        invariant acc == Dot(m[row], v, col)
      {
        acc := Add(acc, Mul(m[row][col], v[col]));
      }
      r := r + [acc];
    }
    assert r == MatVec(m, v);
    out := r;
  }

  lemma InverseIsSquare(m: Matrix)
    requires IsInverse(m, Gram(), D)
    ensures Square(m, D)
  {}

  // ----- the inner product -----

  /** The constant term of a product pairs b with the Gram image of u. */
  lemma CtOfProduct(u: Rq, b: Rq)
    ensures Ct(Times(u, b)) == Dot(MatVec(Gram(), u), b, D)
  {
    RotActsAsTimes(u, b, 0);
    hide Gram;
    forall i | 0 <= i < D
      ensures RowOf(Rot(u), 0)[i] == MatVec(Gram(), u)[i]
    {
      GramApplied(u, i);
    }
    assert RowOf(Rot(u), 0) == MatVec(Gram(), u);
  }

  /** ct(bar(a) b) is the coefficient inner product, for all blocks. */
  lemma InnerProductTransform(a: Rq, b: Rq)
    ensures Ct(Times(Bar(a), b)) == Dot(a, b, D)
  {
    CtOfProduct(Bar(a), b);
    BarInvertsGram(a);
  }

  /** Only the zero block has the zero transform, so dropping zero `bar` blocks drops nothing. */
  lemma BarZero(a: Rq)
    ensures Bar(a) == Zero <==> a == Zero
  {
    BarInvertsGram(a);
    MatVecZeros(Gram(), D);
    assert a == Zero ==> forall k :: 0 <= k < D ==> BarAt(a, k) == 0;
    hide Gram;
  }
}
