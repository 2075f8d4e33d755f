/** The 27-dimensional space ker(1 + theta): its reduced basis, compression and expansion. */
module AntiFixed {
  import opened Field
  import opened Vectors
  import opened Ring
  import opened Multiply
  import opened Goldilocks
  import opened Matrices
  import opened Quaternion

  const N_REAL: nat := 27

  // ----- spans -----

  ghost predicate InSpan(m: Matrix, a: Vec)
    requires Square(m, D)
  {
    exists y: Vec :: |y| == D && RowTimes(y, m, D, D) == a
  }

  /** Every anti-fixed element is a combination of the rows. */
  ghost predicate SpansKernel(m: Matrix)
    requires Square(m, D)
  {
    forall a: Rq :: Quaternion.AntiFixed(a) ==> InSpan(m, a)
  }

  ghost predicate RowsAntiFixed(m: Matrix)
    requires Square(m, D)
  {
    forall i :: 0 <= i < D ==> Quaternion.AntiFixed(m[i])
  }

  /** What the elimination keeps: rows inside the kernel that span it. */
  ghost predicate KernelRows(m: Matrix) {
    Square(m, D) && RowsAntiFixed(m) && SpansKernel(m)
  }

  /** One coefficient apart from the rest. */
  lemma SplitTerm(y: Vec, m: Matrix, i: nat)
    requires Square(m, D) && |y| == D && i < D
    ensures RowTimes(y, m, D, D) == Plus(RowTimes(y[i := 0], m, D, D), Scale(y[i], m[i]))
  {
    var rest, single := y[i := 0], Scale(y[i], Unit(D, i));
    forall k | 0 <= k < D
      ensures Add(rest[k], single[k]) == y[k]
    {
      MulOne(y[i]);
    }
    assert Plus(rest, single) == y;
    RowTimesPlus(rest, single, m, D, D);
    RowTimesScale(y[i], Unit(D, i), m, D, D);
    RowTimesUnit(m, D, i, D);
    hide RowTimes, Scale, Plus;
  }

  lemma {:induction false} AgreeingRows(y: Vec, m: Matrix, n: Matrix, k: nat)
    requires Square(m, D) && Square(n, D) && |y| == D && k <= D
    requires forall i :: 0 <= i < D && y[i] != 0 ==> m[i] == n[i]
    ensures RowTimes(y, m, D, k) == RowTimes(y, n, D, k)
  {
    hide Plus, Scale;
    if k != 0 {
      AgreeingRows(y, m, n, k - 1);
      ScaleOne(m[k - 1]);
      ScaleOne(n[k - 1]);
    }
  }

  /** Combinations agree when all but two terms do and the two add up alike. */
  lemma TwoTerms(y: Vec, m: Matrix, z: Vec, n: Matrix, i: nat, r: nat)
    requires Square(m, D) && Square(n, D) && |y| == |z| == D && i < D && r < D && i != r
    requires forall k :: 0 <= k < D && k != i && k != r ==> y[k] == z[k] && m[k] == n[k]
    requires Plus(Scale(y[r], m[r]), Scale(y[i], m[i])) == Plus(Scale(z[r], n[r]), Scale(z[i], n[i]))
    ensures RowTimes(y, m, D, D) == RowTimes(z, n, D, D)
  {
    hide RowTimes, Plus, Scale;
    SplitTerm(y, m, i);
    SplitTerm(y[i := 0], m, r);
    SplitTerm(z, n, i);
    SplitTerm(z[i := 0], n, r);
    var base := y[i := 0][r := 0];
    assert base == z[i := 0][r := 0];
    AgreeingRows(base, m, n, D);
    var b := RowTimes(base, m, D, D);
    PlusAssoc(b, Scale(y[r], m[r]), Scale(y[i], m[i]));
    PlusAssoc(b, Scale(z[r], n[r]), Scale(z[i], n[i]));
  }

  lemma SwapSpan(m: Matrix, p: nat, q: nat, y: Vec)
    requires Square(m, D) && p < D && q < D && |y| == D
    ensures InSpan(Swapped(m, p, q), RowTimes(y, m, D, D))
  {
    hide RowTimes;
    var n := Swapped(m, p, q);
    if p == q {
      assert n == m;
      assert RowTimes(y, n, D, D) == RowTimes(y, m, D, D);
    } else {
      var z := y[p := y[q]][q := y[p]];
      PlusComm(Scale(y[q], m[q]), Scale(y[p], m[p]));
      TwoTerms(y, m, z, n, p, q);
    }
  }

  lemma ScaledBack(x: Fq, c: Fq, v: Vec)
    requires c != 0
    ensures Scale(Mul(x, Inv(c)), Scale(c, v)) == Scale(x, v)
  {
    hide Mul, Inv, Scale;
    InvIsInverse(c);
    MulAssoc(x, Inv(c), c);
    MulComm(Inv(c), c);
    MulOne(x);
    ScaleScale(Mul(x, Inv(c)), c, v);
  }

  lemma ScaleSpan(m: Matrix, i: nat, c: Fq, y: Vec) returns (z: Vec)
    requires Square(m, D) && i < D && c != 0 && |y| == D
    ensures |z| == D && Square(RowScaled(m, i, c), D)
    ensures RowTimes(z, RowScaled(m, i, c), D, D) == RowTimes(y, m, D, D)
  {
    z := y[i := Mul(y[i], Inv(c))];
    ScaledBack(y[i], c, m[i]);
    hide *;
    ReplacedRows(y, m, z, i, if i == 0 then 1 else 0, Scale(c, m[i]));
  }

  /** Row i replaced, with its coefficient adjusted to keep the sum of terms i and r. */
  lemma ReplacedRows(y: Vec, m: Matrix, z: Vec, i: nat, r: nat, row: Vec)
    requires Square(m, D) && |y| == D && i < D && r < D && i != r && |row| == D
    requires |z| == D && z == y[i := z[i]]
    requires Scale(y[i], m[i]) == Scale(z[i], row)
    ensures Square(m[i := row], D) && RowTimes(z, m[i := row], D, D) == RowTimes(y, m, D, D)
  {
    hide RowTimes, Scale, Plus;
    TwoTerms(y, m, z, m[i := row], i, r);
  }

  lemma ReducedTerms(yr: Fq, yi: Fq, f: Fq, mr: Vec, mi: Vec)
    requires |mr| == |mi|
    ensures Plus(Scale(yr, mr), Scale(yi, mi))
         == Plus(Scale(yr, Minus(mr, Scale(f, mi))), Scale(Add(yi, Mul(yr, f)), mi))
  {
    hide Scale, Plus, Minus, Mul, Add;
    ScaleAdd(yi, Mul(yr, f), mi);
    ScaleScale(yr, f, mi);
    ScaleMinus(yr, mr, Scale(f, mi));
    MoveTerm(Scale(yr, mr), Scale(yi, mi), Scale(Mul(yr, f), mi));
  }

  lemma ReduceSpan(m: Matrix, r: nat, i: nat, f: Fq, y: Vec) returns (z: Vec)
    requires Square(m, D) && i < D && r < D && i != r && |y| == D
    ensures |z| == D && Square(RowReduced(m, r, i, f), D)
    ensures RowTimes(z, RowReduced(m, r, i, f), D, D) == RowTimes(y, m, D, D)
  {
    z := y[i := Add(y[i], Mul(y[r], f))];
    ReducedTerms(y[r], y[i], f, m[r], m[i]);
    hide RowTimes, Mul, Add, Scale, Plus, Minus;
    TwoTerms(y, m, z, RowReduced(m, r, i, f), i, r);
  }

  lemma ScaleMinus(c: Fq, u: Vec, v: Vec)
    requires |u| == |v|
    ensures Scale(c, Minus(u, v)) == Minus(Scale(c, u), Scale(c, v))
  {
    forall k | 0 <= k < |u|
      ensures Mul(c, Sub(u[k], v[k])) == Sub(Mul(c, u[k]), Mul(c, v[k]))
    {
      MulSub(c, u[k], v[k]);
    }
  }

  lemma MoveTerm(x: Vec, w: Vec, t: Vec)
    requires |x| == |w| == |t|
    ensures Plus(x, w) == Plus(Minus(x, t), Plus(w, t))
  {}

  // ----- row operations keep the kernel rows -----

  lemma AntiFixedScale(c: Fq, a: Rq)
    requires Quaternion.AntiFixed(a)
    ensures Quaternion.AntiFixed(Scale(c, a))
  {
    ThetaScale(c, a);
    ScaleMinus(c, Zero, a);
    ScaleZeros(c, D);
    hide Theta, Scale, Minus;
  }

  lemma AntiFixedMinus(a: Rq, b: Rq)
    requires Quaternion.AntiFixed(a) && Quaternion.AntiFixed(b)
    ensures Quaternion.AntiFixed(Minus(a, b))
  {
    ThetaMinus(a, b);
    NegateMinus(a, b);
    hide Theta, Minus;
  }

  lemma NegateMinus(a: Rq, b: Rq)
    ensures Minus(Negate(a), Negate(b)) == Negate(Minus(a, b))
  {}

  lemma SwapKernelRows(m: Matrix, p: nat, q: nat)
    requires KernelRows(m) && p < D && q < D
    ensures KernelRows(Swapped(m, p, q))
  {
    hide RowTimes, Quaternion.AntiFixed;
    forall a: Rq | Quaternion.AntiFixed(a)
      ensures InSpan(Swapped(m, p, q), a)
    {
      assert InSpan(m, a);
      var y: Vec :| |y| == D && RowTimes(y, m, D, D) == a;
      SwapSpan(m, p, q, y);
    }
    hide InSpan;
  }

  lemma ScaleKernelRows(m: Matrix, i: nat, c: Fq)
    requires KernelRows(m) && i < D && c != 0
    ensures KernelRows(RowScaled(m, i, c))
  {
    AntiFixedScale(c, m[i]);
    hide RowTimes, Quaternion.AntiFixed;
    forall a: Rq | Quaternion.AntiFixed(a)
      ensures InSpan(RowScaled(m, i, c), a)
    {
      assert InSpan(m, a);
      var y: Vec :| |y| == D && RowTimes(y, m, D, D) == a;
      var z := ScaleSpan(m, i, c, y);
      assert InSpan(RowScaled(m, i, c), RowTimes(z, RowScaled(m, i, c), D, D));
    }
    hide InSpan;
  }

  lemma ReduceKernelRows(m: Matrix, r: nat, i: nat, f: Fq)
    requires KernelRows(m) && i < D && r < D && i != r
    ensures KernelRows(RowReduced(m, r, i, f))
  {
    AntiFixedScale(f, m[i]);
    AntiFixedMinus(m[r], Scale(f, m[i]));
    hide RowTimes, Quaternion.AntiFixed;
    forall a: Rq | Quaternion.AntiFixed(a)
      ensures Square(RowReduced(m, r, i, f), D) && InSpan(RowReduced(m, r, i, f), a)
    {
      assert InSpan(m, a);
      var y: Vec :| |y| == D && RowTimes(y, m, D, D) == a;
      var z := ReduceSpan(m, r, i, f, y);
      assert InSpan(RowReduced(m, r, i, f), RowTimes(z, RowReduced(m, r, i, f), D, D));
    }
    hide InSpan;
  }

  // ----- the projected basis -----

  /** (1 - theta) / 2 applied to X^i. */
  function Image(i: nat): Rq
    requires i < D
  {
    Scale(HALF, Minus(Mono(i), Theta(Mono(i))))
  }

  function Images(): (m: Matrix)
    ensures Square(m, D)
  {
    seq(D, i requires 0 <= i < D => Image(i))
  }

  lemma DifferenceIsAntiFixed(a: Rq)
    ensures Quaternion.AntiFixed(Minus(a, Theta(a)))
  {
    ThetaMinus(a, Theta(a));
    ThetaInvolution(a);
    MinusSwap(Theta(a), a);
    hide Theta, Minus;
  }

  function Prefix(a: Rq, n: nat): Rq
    requires n <= D
  {
    seq(D, i requires 0 <= i < D => if i < n then a[i] else 0)
  }

  /** Projecting coefficient by coefficient is projecting. */
  lemma {:induction false} ProjectPrefix(a: Rq, n: nat)
    requires n <= D
    ensures RowTimes(a, Images(), D, n) == Scale(HALF, Minus(Prefix(a, n), Theta(Prefix(a, n))))
  {
    if n == 0 {
      assert Prefix(a, 0) == Zero;
      ThetaZero();
      assert Minus(Zero, Zero) == Zero;
      ScaleZeros(HALF, D);
    } else {
      ProjectPrefix(a, n - 1);
      PrefixStep(a, n);
      var p, x, m := Prefix(a, n - 1), a[n - 1], Mono(n - 1);
      ThetaPlus(p, Scale(x, m));
      ThetaScale(x, m);
      ScaleScale(x, HALF, Minus(m, Theta(m)));
      ScaleMinus(x, m, Theta(m));
      MinusPlus(p, Scale(x, m), Theta(p), Scale(x, Theta(m)));
      ScalePlus(HALF, Minus(p, Theta(p)), Minus(Scale(x, m), Scale(x, Theta(m))));
      hide Theta, Scale, Plus, Minus, Prefix;
    }
  }

  lemma PrefixStep(a: Rq, n: nat)
    requires 0 < n <= D
    ensures Prefix(a, n) == Plus(Prefix(a, n - 1), Scale(a[n - 1], Mono(n - 1)))
  {
    MulOne(a[n - 1]);
    forall i | 0 <= i < D
      ensures Prefix(a, n)[i] == Add(Prefix(a, n - 1)[i], Mul(a[n - 1], Mono(n - 1)[i]))
    {}
  }

  lemma MinusPlus(p: Vec, q: Vec, r: Vec, s: Vec)
    requires |p| == |q| == |r| == |s|
    ensures Minus(Plus(p, q), Plus(r, s)) == Plus(Minus(p, r), Minus(q, s))
  {
    forall k | 0 <= k < |p|
      ensures Sub(Add(p[k], q[k]), Add(r[k], s[k])) == Add(Sub(p[k], r[k]), Sub(q[k], s[k]))
    {}
  }

  lemma ImagesAreKernelRows()
    ensures KernelRows(Images())
  {
    forall i | 0 <= i < D
      ensures Quaternion.AntiFixed(Image(i))
    {
      DifferenceIsAntiFixed(Mono(i));
      AntiFixedScale(HALF, Minus(Mono(i), Theta(Mono(i))));
    }
    forall a: Rq | Quaternion.AntiFixed(a)
      ensures InSpan(Images(), a)
    {
      ProjectPrefix(a, D);
      assert Prefix(a, D) == a;
      HalfOfDouble(a);
      assert RowTimes(a, Images(), D, D) == a;
    }
  }

  lemma HalfOfDouble(a: Rq)
    ensures Scale(HALF, Minus(a, Negate(a))) == a
  {
    forall k | 0 <= k < D
      ensures Mul(HALF, Sub(a[k], Sub(0, a[k]))) == a[k]
    {
      assert Sub(a[k], Sub(0, a[k])) == Add(a[k], a[k]);
      HalfDoubles(a[k]);
    }
  }

  lemma HalfDoubles(x: Fq)
    ensures Mul(HALF, Add(x, x)) == x
  {
    MulAdd(HALF, x, x);
    MulAdd(x, HALF, HALF);
    assert Add(HALF, HALF) == 1;
    MulOne(x);
    hide Mul;
  }

  // ----- anti-fixed elements by coordinates -----

  /** Relations between the coordinates of an anti-fixed element. */
  lemma Coordinates(a: Rq)
    requires Quaternion.AntiFixed(a)
    ensures a[27] == Add(a[0], a[0])
    ensures forall k :: 1 <= k < 27 ==> a[k] == a[27 - k] && Add(a[27 + k], a[54 - k]) == a[k]
  {
    var n := Negate(a);
    assert forall k :: 0 <= k < D ==> n[k] == Sub(0, a[k]);
    assert ThetaAt(a, 0) == n[0];
    forall k | 1 <= k < 27
      ensures a[k] == a[27 - k] && Add(a[27 + k], a[54 - k]) == a[k]
    {
      assert ThetaAt(a, k) == n[k] && ThetaAt(a, 27 + k) == n[27 + k];
      assert ThetaAt(a, 27 - k) == n[27 - k];
    }
  }

  /** Pivot number i of the reduced basis. */
  function Pivot(i: nat): nat { if i < 14 then i else i + 14 }

  predicate IsPivot(c: nat) { c < 14 || 28 <= c <= 40 }

  /** Number of pivots before column c. */
  function PivotsBefore(c: nat): nat {
    if c <= 14 then c else if c <= 28 then 14 else if c <= 41 then c - 14 else N_REAL
  }

  /** Zeros before a column that is no pivot force a zero there. */
  lemma NoPivotColumn(a: Rq, c: nat)
    requires Quaternion.AntiFixed(a) && c < D && !IsPivot(c) && forall k :: 0 <= k < c ==> a[k] == 0
    ensures a[c] == 0
  {
    Coordinates(a);
    if c < 27 {
      assert a[c] == a[27 - c];
    } else if c > 27 {
      var k := c - 27;
      assert Add(a[27 + k], a[54 - k]) == a[k];
    }
  }

  /** An anti-fixed element with a one at a pivot and zeros before. */
  function Witness(c: nat): Rq
    requires c < D
  {
    var t := if c == 0 then 27 else c;
    Minus(Mono(t), Theta(Mono(t)))
  }

  lemma WitnessShape(c: nat)
    requires c < D && IsPivot(c)
    ensures Quaternion.AntiFixed(Witness(c))
    ensures Witness(c)[c] == 1 && forall k :: 0 <= k < c ==> Witness(c)[k] == 0
  {
    var t := if c == 0 then 27 else c;
    DifferenceIsAntiFixed(Mono(t));
    var m := Mono(t);
    var w := Witness(c);
    forall k | 0 <= k <= c
      ensures w[k] == if k == c then 1 else 0
    {
      assert Theta(m)[k] == ThetaAt(m, k);
    }
  }

  // ----- the elimination -----

  /** Columns before col are reduced; the first rows carry the pivots found so far. */
  ghost predicate Reduced(m: Matrix, col: nat)
    requires Square(m, D) && col <= D
  {
    var count := PivotsBefore(col);
    && (forall i, k :: 0 <= i < D && 0 <= k < count ==> m[i][Pivot(k)] == if i == k then 1 else 0)
    && (forall i, c :: count <= i < D && 0 <= c < col ==> m[i][c] == 0)
  }

  lemma {:induction false} CombinationAt(y: Vec, m: Matrix, c: nat, k: nat, n: nat)
    requires Square(m, D) && |y| == D && c < D && n <= D
    requires forall i :: 0 <= i < D ==> m[i][c] == if i == k then 1 else 0
    ensures RowTimes(y, m, D, n)[c] == if k < n then y[k] else 0
  {
    if n != 0 {
      CombinationAt(y, m, c, k, n - 1);
      MulOne(y[n - 1]);
    }
    hide Mul;
  }

  lemma {:induction false} CombinationVanishes(y: Vec, m: Matrix, c: nat, n: nat)
    requires Square(m, D) && |y| == D && c < D && n <= D
    requires forall i :: 0 <= i < D ==> y[i] == 0 || m[i][c] == 0
    ensures RowTimes(y, m, D, n)[c] == 0
  {
    if n != 0 {
      CombinationVanishes(y, m, c, n - 1);
      MulOne(y[n - 1]);
      MulOne(m[n - 1][c]);
    }
    hide Mul;
  }

  /** In a pivot column some row below the pivots is nonzero. */
  lemma PivotExists(m: Matrix, col: nat)
    requires KernelRows(m) && col < D && IsPivot(col) && Reduced(m, col)
    ensures exists r :: PivotsBefore(col) <= r < D && m[r][col] != 0
  {
    if forall r :: PivotsBefore(col) <= r < D ==> m[r][col] == 0 {
      WitnessShape(col);
      var w := Witness(col);
      assert InSpan(m, w);
      var y: Vec :| |y| == D && RowTimes(y, m, D, D) == w;
      forall k | 0 <= k < PivotsBefore(col)
        ensures y[k] == 0
      {
        CombinationAt(y, m, Pivot(k), k, D);
      }
      CombinationVanishes(y, m, col, D);
    }
  }

  lemma NoPivotRows(m: Matrix, col: nat)
    requires KernelRows(m) && col < D && !IsPivot(col) && Reduced(m, col)
    ensures forall r :: PivotsBefore(col) <= r < D ==> m[r][col] == 0
    ensures Reduced(m, col + 1)
  {
    forall r | PivotsBefore(col) <= r < D
      ensures m[r][col] == 0
    {
      NoPivotColumn(m[r], col);
    }
  }

  method FindPivotRow(mat: array<Vec>, count: nat, col: nat) returns (row: nat)
    requires mat.Length == D && Square(mat[..], D) && count <= D && col < D
    ensures count <= row <= D
    ensures row < D ==> mat[row][col] != 0
    ensures forall r :: count <= r < row ==> mat[r][col] == 0
  {
    row := count;
    while row < D && mat[row][col] == 0
      invariant count <= row <= D
      invariant forall r :: count <= r < row ==> mat[r][col] == 0
    {
      row := row + 1;
    }
  }

  /** Swaps, scales and eliminates one pivot. */
  method ReduceColumn(mat: array<Vec>, row: nat, col: nat)
    requires mat.Length == D && KernelRows(mat[..]) && col < D && IsPivot(col) && Reduced(mat[..], col)
    requires PivotsBefore(col) <= row < D && mat[row][col] != 0
    modifies mat
    ensures KernelRows(mat[..]) && Reduced(mat[..], col + 1)
  {
    hide KernelRows, Swapped, RowScaled, Reduced;
    var count := PivotsBefore(col);
    KernelRowsAreSquare(mat[..]);
    SwapKernelRows(mat[..], count, row);
    SwapKeepsReduced(mat[..], col, row);
    SwapRows(mat, count, row);
    var pivInv := PivotInverse(mat[count][col]);
    ScaleKernelRows(mat[..], count, pivInv);
    ScaleKeepsReduced(mat[..], col, pivInv);
    ScaleRow(mat, count, pivInv);
    ClearColumn(mat, col);
  }

  ghost predicate Normalised(m: Matrix, col: nat)
    requires Square(m, D) && col < D
  {
    Reduced(m, col) && PivotsBefore(col) < D && m[PivotsBefore(col)][col] == 1
  }

  lemma KernelRowsAreSquare(m: Matrix)
    requires KernelRows(m)
    ensures Square(m, D)
  {}

  lemma SwapKeepsReduced(m: Matrix, col: nat, row: nat)
    requires Square(m, D) && col < D && Reduced(m, col) && PivotsBefore(col) <= row < D
    ensures var s := Swapped(m, PivotsBefore(col), row);
            Square(s, D) && Reduced(s, col) && s[PivotsBefore(col)] == m[row]
  {}

  lemma ScaleKeepsReduced(m: Matrix, col: nat, c: Fq)
    requires Square(m, D) && col < D && Reduced(m, col) && PivotsBefore(col) < D
    requires Mul(c, m[PivotsBefore(col)][col]) == 1
    ensures var s := RowScaled(m, PivotsBefore(col), c); Square(s, D) && Normalised(s, col)
  {
    MulOne(c);
    hide Mul;
  }

  /** Eliminates the other rows of a pivot column. */
  method ClearColumn(mat: array<Vec>, col: nat)
    requires mat.Length == D && KernelRows(mat[..]) && col < D && IsPivot(col)
    requires Square(mat[..], D) && Normalised(mat[..], col)
    modifies mat
    ensures KernelRows(mat[..]) && Square(mat[..], D) && Reduced(mat[..], col + 1)
  {
    var count := PivotsBefore(col);
    hide KernelRows, RowReduced, Normalised;
    for r := 0 to D
      invariant KernelRows(mat[..]) && Square(mat[..], D) && Normalised(mat[..], col)
      invariant forall i :: 0 <= i < r && i != count ==> mat[i][col] == 0
    {
      NormalisedPivot(mat[..], col);
      if r == count {
        continue;
      }
      var factor := mat[r][col];
      if factor == 0 {
        continue;
      }
      ReduceKernelRows(mat[..], r, count, factor);
      ReduceKeepsReduced(mat[..], col, r, factor);
      ReduceRow(mat, r, count, factor);
    }
    ClearedColumn(mat[..], col);
  }

  lemma NormalisedPivot(m: Matrix, col: nat)
    requires Square(m, D) && col < D && Normalised(m, col)
    ensures PivotsBefore(col) < D && m[PivotsBefore(col)][col] == 1
  {}

  lemma ReduceKeepsReduced(m: Matrix, col: nat, r: nat, f: Fq)
    requires Square(m, D) && col < D && Normalised(m, col) && r < D && r != PivotsBefore(col) && f == m[r][col]
    ensures var s := RowReduced(m, r, PivotsBefore(col), f);
            && Square(s, D) && Normalised(s, col) && s[r][col] == 0
            && forall i :: 0 <= i < D && i != r ==> s[i] == m[i]
  {
    MulOne(f);
  }

  lemma ClearedColumn(m: Matrix, col: nat)
    requires Square(m, D) && col < D && IsPivot(col) && Normalised(m, col)
    requires forall i :: 0 <= i < D && i != PivotsBefore(col) ==> m[i][col] == 0
    ensures Reduced(m, col + 1)
  {
    assert Pivot(PivotsBefore(col)) == col && PivotsBefore(col + 1) == PivotsBefore(col) + 1;
  }

  /** A basis in reduced form: coordinates are read off at the pivots. */
  ghost predicate IsBasis(basis: seq<Rq>) {
    && |basis| == N_REAL
    && (forall i :: 0 <= i < N_REAL ==> Quaternion.AntiFixed(basis[i]))
    && (forall i, k :: 0 <= i < N_REAL && 0 <= k < N_REAL ==> basis[i][Pivot(k)] == if i == k then 1 else 0)
    && (forall a: Rq :: Quaternion.AntiFixed(a) ==> Combination(basis, Coords(a), N_REAL) == a)
  }

  /** The coordinates of an anti-fixed element. */
  function Coords(a: Rq): (c: Vec)
    ensures |c| == N_REAL
  {
    seq(N_REAL, i requires 0 <= i < N_REAL => a[Pivot(i)])
  }

  function Combination(basis: seq<Rq>, c: Vec, n: nat): Rq
    requires n <= |basis| && n <= |c|
  {
    if n == 0 then Zero else Plus(Combination(basis, c, n - 1), Scale(c[n - 1], basis[n - 1]))
  }

  method StartRows() returns (mat: array<Vec>)
    ensures fresh(mat) && mat.Length == D
    ensures KernelRows(mat[..]) && Square(mat[..], D) && Reduced(mat[..], 0)
  {
    hide Image;
    mat := new Vec[D](i requires 0 <= i < D => Image(i));
    assert mat[..] == Images();
    ImagesAreKernelRows();
  }

  /** One column of the elimination. */
  method StepColumn(mat: array<Vec>, col: nat, pivots: seq<nat>) returns (out: seq<nat>)
    requires mat.Length == D && col < 41 && |pivots| == PivotsBefore(col)
    requires KernelRows(mat[..]) && Square(mat[..], D) && Reduced(mat[..], col)
    requires forall i :: 0 <= i < |pivots| ==> pivots[i] == Pivot(i)
    modifies mat
    ensures KernelRows(mat[..]) && Square(mat[..], D) && Reduced(mat[..], col + 1)
    ensures |out| == PivotsBefore(col + 1) && forall i :: 0 <= i < |out| ==> out[i] == Pivot(i)
  {
    hide KernelRows, Reduced;
    out := pivots;
    var row := FindPivotRow(mat, |pivots|, col);
    if IsPivot(col) {
      PivotExists(mat[..], col);
    } else {
      NoPivotRows(mat[..], col);
    }
    if row < D {
      ReduceColumn(mat, row, col);
      KernelRowsAreSquare(mat[..]);
      out := pivots + [col];
    }
  }

  /** The elimination of `build_anti_fixed_basis`: it finds 27 pivots, so its assertion holds. */
  method BuildAntiFixedBasis() returns (basis: seq<Rq>, pivots: seq<nat>)
    ensures IsBasis(basis)
    ensures |pivots| == N_REAL && forall i :: 0 <= i < N_REAL ==> pivots[i] == Pivot(i)
  {
    hide KernelRows, Reduced, IsBasis;
    var mat := StartRows();
    pivots := [];
    var col := 0;
    while col < D && |pivots| < N_REAL
      invariant fresh(mat) && mat.Length == D && col <= 41 && |pivots| == PivotsBefore(col)
      invariant KernelRows(mat[..]) && Square(mat[..], D) && Reduced(mat[..], col)
      invariant forall i :: 0 <= i < |pivots| ==> pivots[i] == Pivot(i)
    {
      pivots := StepColumn(mat, col, pivots);
      col := col + 1;
    }
    BasisComplete(mat[..]);
    basis := mat[..N_REAL];
    assert basis == mat[..][..N_REAL];
  }

  lemma BasisComplete(m: Matrix)
    requires KernelRows(m) && Reduced(m, 41)
    ensures Square(m, D) && IsBasis(m[..N_REAL])
  {
    forall i | N_REAL <= i < D
      ensures m[i] == Zero
    {
      ZeroBelowPivots(m[i]);
    }
    var basis: seq<Rq> := m[..N_REAL];
    forall a: Rq | Quaternion.AntiFixed(a)
      ensures Combination(basis, Coords(a), N_REAL) == a
    {
      assert InSpan(m, a);
      var y: Vec :| |y| == D && RowTimes(y, m, D, D) == a;
      forall k | 0 <= k < N_REAL
        ensures y[k] == a[Pivot(k)]
      {
        CombinationAt(y, m, Pivot(k), k, D);
      }
      OnlyBasisRows(y, m, D);
      BasisRows(y, m, basis, Coords(a), N_REAL);
    }
  }

  lemma ZeroBelowPivots(a: Rq)
    requires Quaternion.AntiFixed(a) && forall c :: 0 <= c < 41 ==> a[c] == 0
    ensures a == Zero
  {
    Coordinates(a);
    forall c | 41 <= c < D
      ensures a[c] == 0
    {
      var k := c - 27;
      assert Add(a[27 + k], a[54 - k]) == a[k];
    }
  }

  lemma {:induction false} OnlyBasisRows(y: Vec, m: Matrix, n: nat)
    requires Square(m, D) && |y| == D && N_REAL <= n <= D
    requires forall i :: N_REAL <= i < D ==> m[i] == Zero
    ensures RowTimes(y, m, D, n) == RowTimes(y, m, D, N_REAL)
    decreases n
  {
    hide Plus, Scale;
    if n > N_REAL {
      OnlyBasisRows(y, m, n - 1);
      ScaleZeros(y[n - 1], D);
      PlusZeros(RowTimes(y, m, D, n - 1));
    }
  }

  lemma {:induction false} BasisRows(y: Vec, m: Matrix, basis: seq<Rq>, c: Vec, n: nat)
    requires Square(m, D) && |y| == D && |basis| == |c| == N_REAL && n <= N_REAL
    requires forall i :: 0 <= i < N_REAL ==> basis[i] == m[i] && c[i] == y[i]
    ensures Combination(basis, c, n) == RowTimes(y, m, D, n)
  {
    hide Plus, Scale;
    if n != 0 {
      BasisRows(y, m, basis, c, n - 1);
    }
  }
}
