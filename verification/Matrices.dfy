/** Square matrices over F_q as rows, and their inversion by Gauss-Jordan elimination in place. */
module Matrices {
  import opened Field
  import opened Vectors
  import opened Goldilocks
  import opened Rotations

  type Matrix = seq<Vec>

  ghost predicate Square(m: Matrix, n: nat) {
    |m| == n && forall i :: 0 <= i < n ==> |m[i]| == n
  }

  function Unit(n: nat, i: nat): (v: Vec)
    ensures |v| == n
  {
    seq(n, j => if j == i then 1 else 0)
  }

  function Identity(n: nat): (m: Matrix)
    ensures Square(m, n)
  {
    seq(n, i requires 0 <= i => Unit(n, i))
  }

  function MatVec(m: Matrix, x: Vec): (y: Vec)
    requires forall i :: 0 <= i < |m| ==> |m[i]| == |x|
    ensures |y| == |m|
  {
    seq(|m|, i requires 0 <= i < |m| => Dot(m[i], x, |x|))
  }

  /** The combination of the first k rows with coefficients y. */
  function RowTimes(y: Vec, m: Matrix, n: nat, k: nat): (r: Vec)
    requires Square(m, n) && |y| == n && k <= n
    ensures |r| == n
  {
    if k == 0 then Zeros(n) else Plus(RowTimes(y, m, n, k - 1), Scale(y[k - 1], m[k - 1]))
  }

  // ----- linearity -----

  lemma {:induction false} DotScale(c: Fq, u: Vec, v: Vec, n: nat)
    requires n <= |u| && n <= |v|
    ensures Dot(Scale(c, u), v, n) == Mul(c, Dot(u, v, n))
  {
    MulOne(c);
    hide Mul, Add;
    if n != 0 {
      DotScale(c, u, v, n - 1);
      MulAssoc(c, u[n - 1], v[n - 1]);
      MulAdd(c, Dot(u, v, n - 1), Mul(u[n - 1], v[n - 1]));
    }
  }

  lemma {:induction false} DotPlus(u: Vec, w: Vec, v: Vec, n: nat)
    requires |u| == |w| && n <= |u| && n <= |v|
    ensures Dot(Plus(u, w), v, n) == Add(Dot(u, v, n), Dot(w, v, n))
  {
    if n != 0 {
      DotPlus(u, w, v, n - 1);
      MulAdd(v[n - 1], u[n - 1], w[n - 1]);
      AddSwap(Dot(u, v, n - 1), Dot(w, v, n - 1), Mul(u[n - 1], v[n - 1]), Mul(w[n - 1], v[n - 1]));
      hide Mul, Add;
    }
  }

  lemma {:induction false} DotComm(u: Vec, v: Vec, n: nat)
    requires n <= |u| && n <= |v|
    ensures Dot(u, v, n) == Dot(v, u, n)
  {
    hide Mul, Add;
    if n != 0 {
      DotComm(u, v, n - 1);
      MulComm(u[n - 1], v[n - 1]);
    }
  }

  lemma DotMinus(u: Vec, w: Vec, v: Vec, n: nat)
    requires |u| == |w| && n <= |u| && n <= |v|
    ensures Dot(Minus(u, w), v, n) == Sub(Dot(u, v, n), Dot(w, v, n))
  {
    PlusMinus(u, w);
    DotPlus(Minus(u, w), w, v, n);
  }

  lemma {:induction false} DotZeros(v: Vec, m: nat, n: nat)
    requires n <= |v| && n <= m
    ensures Dot(Zeros(m), v, n) == 0
  {
    if n != 0 {
      DotZeros(v, m, n - 1);
      MulOne(v[n - 1]);
    }
  }

  lemma {:induction false} DotUnit(v: Vec, m: nat, i: nat, n: nat)
    requires n <= |v| && n <= m
    ensures Dot(Unit(m, i), v, n) == if i < n then v[i] else 0
  {
    if n != 0 {
      DotUnit(v, m, i, n - 1);
      MulOne(v[n - 1]);
    }
    hide Mul;
  }

  lemma {:induction false} RowTimesScale(c: Fq, y: Vec, m: Matrix, n: nat, k: nat)
    requires Square(m, n) && |y| == n && k <= n
    ensures RowTimes(Scale(c, y), m, n, k) == Scale(c, RowTimes(y, m, n, k))
  {
    hide Mul, Plus, Scale;
    if k == 0 {
      ScaleZeros(c, n);
    } else {
      RowTimesScale(c, y, m, n, k - 1);
      ScaleScale(c, y[k - 1], m[k - 1]);
      ScalePlus(c, RowTimes(y, m, n, k - 1), Scale(y[k - 1], m[k - 1]));
      ScaleAt(c, y, k - 1);
    }
  }

  lemma ScaleAt(c: Fq, y: Vec, i: nat)
    requires i < |y|
    ensures Scale(c, y)[i] == Mul(c, y[i])
  {}

  lemma {:induction false} RowTimesPlus(y: Vec, z: Vec, m: Matrix, n: nat, k: nat)
    requires Square(m, n) && |y| == |z| == n && k <= n
    ensures RowTimes(Plus(y, z), m, n, k) == Plus(RowTimes(y, m, n, k), RowTimes(z, m, n, k))
  {
    if k == 0 {
      PlusZeros(Zeros(n));
    } else {
      RowTimesPlus(y, z, m, n, k - 1);
      ScaleAdd(y[k - 1], z[k - 1], m[k - 1]);
      PlusSwap(RowTimes(y, m, n, k - 1), RowTimes(z, m, n, k - 1),
               Scale(y[k - 1], m[k - 1]), Scale(z[k - 1], m[k - 1]));
    }
  }

  lemma RowTimesMinus(y: Vec, z: Vec, m: Matrix, n: nat)
    requires Square(m, n) && |y| == |z| == n
    ensures RowTimes(Minus(y, z), m, n, n) == Minus(RowTimes(y, m, n, n), RowTimes(z, m, n, n))
  {
    PlusMinus(y, z);
    RowTimesPlus(Minus(y, z), z, m, n, n);
    PlusMinus(RowTimes(Minus(y, z), m, n, n), RowTimes(z, m, n, n));
    hide Plus, Minus;
  }

  lemma {:induction false} RowTimesUnit(m: Matrix, n: nat, i: nat, k: nat)
    requires Square(m, n) && i < n && k <= n
    ensures RowTimes(Unit(n, i), m, n, k) == if i < k then m[i] else Zeros(n)
  {
    hide Scale, Plus;
    if k != 0 {
      RowTimesUnit(m, n, i, k - 1);
      ScaleOne(m[k - 1]);
      PlusZeros(m[k - 1]);
      PlusZeros(m[i]);
      PlusZeros(Zeros(n));
    }
  }

  /** (y m) . x == y . (m x) */
  lemma {:induction false} RowTimesDot(y: Vec, m: Matrix, n: nat, x: Vec, k: nat)
    requires Square(m, n) && |y| == |x| == n && k <= n
    ensures Dot(RowTimes(y, m, n, k), x, n) == Dot(y, MatVec(m, x), k)
  {
    hide Mul, Add, Plus, Scale;
    if k == 0 {
      DotZeros(x, n, n);
    } else {
      RowTimesDot(y, m, n, x, k - 1);
      DotPlus(RowTimes(y, m, n, k - 1), Scale(y[k - 1], m[k - 1]), x, n);
      DotScale(y[k - 1], m[k - 1], x, n);
    }
  }

  // ----- kernels -----

  ghost predicate Kills(m: Matrix, n: nat, x: Vec)
    requires Square(m, n)
  {
    |x| == n && forall i :: 0 <= i < n ==> Dot(m[i], x, n) == 0
  }

  /** Whatever m kills, base kills. */
  ghost predicate Reflects(m: Matrix, base: Matrix, n: nat)
    requires Square(m, n) && Square(base, n)
  {
    forall x: Vec :: |x| == n && Kills(m, n, x) ==> Kills(base, n, x)
  }

  ghost predicate KernelTrivial(m: Matrix, n: nat)
    requires Square(m, n)
  {
    forall x: Vec :: |x| == n && Kills(m, n, x) ==> x == Zeros(n)
  }

  lemma IdentityKillsZeros(n: nat, x: Vec)
    requires |x| == n && Kills(Identity(n), n, x)
    ensures x == Zeros(n)
  {
    forall i | 0 <= i < n
      ensures x[i] == 0
    {
      DotUnit(x, n, i, n);
      assert Dot(Identity(n)[i], x, n) == 0;
    }
  }

  // ----- row operations -----

  /** The rows of inv express the rows of a through those of base. */
  ghost predicate Tracks(inv: Matrix, base: Matrix, a: Matrix, n: nat)
    requires Square(inv, n) && Square(base, n) && Square(a, n)
  {
    forall i :: 0 <= i < n ==> RowTimes(inv[i], base, n, n) == a[i]
  }

  /** What every row operation of the elimination keeps. */
  ghost predicate Sound(a: Matrix, inv: Matrix, base: Matrix, n: nat) {
    && Square(a, n) && Square(inv, n) && Square(base, n)
    && Tracks(inv, base, a, n) && Reflects(a, base, n) && Reflects(inv, Identity(n), n)
  }

  function Swapped(m: Matrix, p: nat, q: nat): (r: Matrix)
    requires p < |m| && q < |m|
  {
    m[p := m[q]][q := m[p]]
  }

  function RowScaled(m: Matrix, i: nat, c: Fq): (r: Matrix)
    requires i < |m|
  {
    m[i := Scale(c, m[i])]
  }

  function RowReduced(m: Matrix, r: nat, i: nat, f: Fq): Matrix
    requires r < |m| && i < |m| && |m[r]| == |m[i]|
  {
    m[r := Minus(m[r], Scale(f, m[i]))]
  }

  lemma SwapReflects(m: Matrix, base: Matrix, n: nat, p: nat, q: nat)
    requires Square(m, n) && Square(base, n) && p < n && q < n && Reflects(m, base, n)
    ensures Square(Swapped(m, p, q), n) && Reflects(Swapped(m, p, q), base, n)
  {
    var s := Swapped(m, p, q);
    forall x: Vec | |x| == n && Kills(s, n, x)
      ensures Kills(m, n, x)
    {
      forall i | 0 <= i < n
        ensures Dot(m[i], x, n) == 0
      {
        assert m[i] == s[if i == p then q else if i == q then p else i];
      }
    }
  }

  lemma ScaleReflects(m: Matrix, base: Matrix, n: nat, i: nat, c: Fq)
    requires Square(m, n) && Square(base, n) && i < n && c != 0 && Reflects(m, base, n)
    ensures Square(RowScaled(m, i, c), n) && Reflects(RowScaled(m, i, c), base, n)
  {
    var s := RowScaled(m, i, c);
    forall x: Vec | |x| == n && Kills(s, n, x)
      ensures Kills(m, n, x)
    {
      forall k | 0 <= k < n
        ensures Dot(m[k], x, n) == 0
      {
        assert Dot(s[k], x, n) == 0;
        if k == i {
          DotScale(c, m[i], x, n);
          if Dot(m[i], x, n) != 0 {
            ProductNonzero(c, Dot(m[i], x, n));
          }
        }
      }
    }
  }

  lemma ReduceReflects(m: Matrix, base: Matrix, n: nat, r: nat, i: nat, f: Fq)
    requires Square(m, n) && Square(base, n) && r < n && i < n && r != i && Reflects(m, base, n)
    ensures Square(RowReduced(m, r, i, f), n) && Reflects(RowReduced(m, r, i, f), base, n)
  {
    var s := RowReduced(m, r, i, f);
    forall x: Vec | |x| == n && Kills(s, n, x)
      ensures Kills(m, n, x)
    {
      forall k | 0 <= k < n
        ensures Dot(m[k], x, n) == 0
      {
        assert Dot(s[k], x, n) == 0 && Dot(s[i], x, n) == 0;
        if k == r {
          DotMinus(m[r], Scale(f, m[i]), x, n);
          DotScale(f, m[i], x, n);
          MulOne(f);
        }
      }
      hide Mul;
    }
  }

  lemma SwapSound(a: Matrix, inv: Matrix, base: Matrix, n: nat, p: nat, q: nat)
    requires Sound(a, inv, base, n) && p < n && q < n
    ensures Sound(Swapped(a, p, q), Swapped(inv, p, q), base, n)
  {
    hide Reflects, RowTimes, Identity;
    SwapReflects(a, base, n, p, q);
    SwapReflects(inv, Identity(n), n, p, q);
    var sa, si := Swapped(a, p, q), Swapped(inv, p, q);
    forall i | 0 <= i < n
      ensures RowTimes(si[i], base, n, n) == sa[i]
    {
      var k := if i == p then q else if i == q then p else i;
      assert si[i] == inv[k] && sa[i] == a[k];
    }
  }

  lemma ScaleSound(a: Matrix, inv: Matrix, base: Matrix, n: nat, i: nat, c: Fq)
    requires Sound(a, inv, base, n) && i < n && c != 0
    ensures Sound(RowScaled(a, i, c), RowScaled(inv, i, c), base, n)
  {
    ScaleReflects(a, base, n, i, c);
    ScaleReflects(inv, Identity(n), n, i, c);
    RowTimesScale(c, inv[i], base, n, n);
    hide Reflects, RowTimes, Scale;
  }

  lemma ReduceSound(a: Matrix, inv: Matrix, base: Matrix, n: nat, r: nat, i: nat, f: Fq)
    requires Sound(a, inv, base, n) && r < n && i < n && r != i
    ensures Sound(RowReduced(a, r, i, f), RowReduced(inv, r, i, f), base, n)
  {
    ReduceReflects(a, base, n, r, i, f);
    ReduceReflects(inv, Identity(n), n, r, i, f);
    RowTimesScale(f, inv[i], base, n, n);
    RowTimesMinus(inv[r], Scale(f, inv[i]), base, n);
    hide Reflects, RowTimes, Scale, Minus;
  }

  // ----- the elimination -----

  /** The first k columns are those of the identity. */
  ghost predicate UnitColumns(a: Matrix, n: nat, k: nat)
    requires Square(a, n) && k <= n
  {
    forall i, j :: 0 <= i < n && 0 <= j < k ==> a[i][j] == if i == j then 1 else 0
  }

  method FindPivot(a: array<Vec>, n: nat, col: nat) returns (pivot: nat)
    requires Square(a[..], n) && col < n == a.Length
    ensures col <= pivot <= n
    ensures pivot < n ==> a[pivot][col] != 0
    ensures forall r :: col <= r < pivot ==> a[r][col] == 0
  {
    pivot := col;
    while pivot < n && a[pivot][col] == 0
      invariant col <= pivot <= n
      invariant forall r :: col <= r < pivot ==> a[r][col] == 0
    {
      pivot := pivot + 1;
    }
  }

  method SwapRows(m: array<Vec>, p: nat, q: nat)
    requires p < m.Length && q < m.Length
    modifies m
    ensures m[..] == Swapped(old(m[..]), p, q)
  {
    m[p], m[q] := m[q], m[p];
  }

  method ScaleRow(m: array<Vec>, i: nat, c: Fq)
    requires i < m.Length
    modifies m
    ensures m[..] == RowScaled(old(m[..]), i, c)
  {
    hide Mul;
    ghost var before := m[..];
    for k := 0 to |m[i]|
      invariant |m[i]| == |before[i]|
      invariant forall l :: 0 <= l < m.Length && l != i ==> m[l] == before[l]
      invariant forall l :: 0 <= l < |before[i]| ==> m[i][l] == if l < k then Mul(c, before[i][l]) else before[i][l]
    {
      MulComm(c, m[i][k]);
      m[i] := m[i][k := Mul(m[i][k], c)];
    }
    assert m[i] == Scale(c, before[i]);
  }

  method ReduceRow(m: array<Vec>, r: nat, i: nat, f: Fq)
    requires r < m.Length && i < m.Length && r != i && |m[r]| == |m[i]|
    modifies m
    ensures m[..] == RowReduced(old(m[..]), r, i, f)
  {
    hide Mul, Sub;
    ghost var before := m[..];
    for k := 0 to |m[r]|
      invariant |m[r]| == |before[r]|
      invariant forall l :: 0 <= l < m.Length && l != r ==> m[l] == before[l]
      invariant forall l :: 0 <= l < |before[r]| ==>
        m[r][l] == if l < k then Sub(before[r][l], Mul(f, before[i][l])) else before[r][l]
    {
      m[r] := m[r][k := Sub(m[r][k], Mul(f, m[i][k]))];
    }
    assert m[r] == Minus(before[r], Scale(f, before[i]));
  }

  /** Column col is cleared outside its pivot. */
  method Eliminate(a: array<Vec>, inv: array<Vec>, ghost base: Matrix, n: nat, col: nat)
    requires a != inv && a.Length == inv.Length == n && col < n
    requires Sound(a[..], inv[..], base, n)
    requires UnitColumns(a[..], n, col) && a[col][col] == 1
    modifies a, inv
    ensures Sound(a[..], inv[..], base, n) && UnitColumns(a[..], n, col + 1)
  {
    hide Tracks, Reflects, RowReduced;
    for r := 0 to n
      invariant Sound(a[..], inv[..], base, n)
      invariant UnitColumns(a[..], n, col) && a[col][col] == 1
      invariant forall i :: 0 <= i < r && i != col ==> a[i][col] == 0
    {
      if r == col {
        continue;
      }
      var factor := a[r][col];
      if factor == 0 {
        continue;
      }
      ReduceSound(a[..], inv[..], base, n, r, col, factor);
      ReduceKeepsUnits(a[..], n, col, r, factor);
      ReduceRow(a, r, col, factor);
      ReduceRow(inv, r, col, factor);
    }
  }

  lemma ReduceKeepsUnits(a: Matrix, n: nat, col: nat, r: nat, f: Fq)
    requires Square(a, n) && col < n && r < n && r != col
    requires UnitColumns(a, n, col) && a[col][col] == 1 && f == a[r][col]
    ensures var s := RowReduced(a, r, col, f);
            && Square(s, n) && UnitColumns(s, n, col) && s[r][col] == 0
            && forall i :: 0 <= i < n && i != r ==> s[i] == a[i]
  {
    MulOne(f);
  }

  lemma ScaleKeepsUnits(a: Matrix, n: nat, col: nat, c: Fq)
    requires Square(a, n) && col < n && UnitColumns(a, n, col) && Mul(c, a[col][col]) == 1
    ensures var s := RowScaled(a, col, c);
            Square(s, n) && UnitColumns(s, n, col) && s[col][col] == 1
  {
    MulOne(c);
    hide Mul;
  }

  /** Finds a pivot for column col, brings it to row col and scales it to one. */
  method PlacePivot(a: array<Vec>, inv: array<Vec>, ghost base: Matrix, n: nat, col: nat) returns (found: bool)
    requires a != inv && a.Length == inv.Length == n && col < n
    requires Sound(a[..], inv[..], base, n) && UnitColumns(a[..], n, col)
    modifies a, inv
    ensures Sound(a[..], inv[..], base, n) && UnitColumns(a[..], n, col)
    ensures found ==> a[col][col] == 1
    ensures !found ==> forall r :: col <= r < n ==> a[r][col] == 0
  {
    hide Tracks, Reflects, Swapped, RowScaled, UnitColumns;
    var pivot := FindPivot(a, n, col);
    if pivot == n {
      return false;
    }
    if pivot != col {
      SwapSound(a[..], inv[..], base, n, pivot, col);
      SwapKeepsUnits(a[..], n, col, pivot);
      SwapRows(a, pivot, col);
      SwapRows(inv, pivot, col);
    }
    var pivInv := PivotInverse(a[col][col]);
    ScaleSound(a[..], inv[..], base, n, col, pivInv);
    ScaleKeepsUnits(a[..], n, col, pivInv);
    ScaleRow(a, col, pivInv);
    ScaleRow(inv, col, pivInv);
    found := true;
  }

  method PivotInverse(x: Fq) returns (r: Fq)
    requires x != 0
    ensures r != 0 && Mul(r, x) == 1
  {
    r := Inv(x);
    InvIsInverse(x);
    MulComm(r, x);
    MulOne(x);
  }

  /** `invert_matrix`, for any dimension: exactly the matrices with trivial kernel are inverted. */
  method InvertMatrix(a0: Matrix, n: nat) returns (some: bool, inverse: Matrix)
    requires Square(a0, n)
    ensures some <==> KernelTrivial(a0, n)
    ensures some ==> IsInverse(inverse, a0, n)
  {
    var a := new Vec[n](i requires 0 <= i < n => a0[i]);
    var inv := new Vec[n](i requires 0 <= i => Unit(n, i));
    assert a[..] == a0 && inv[..] == Identity(n);
    StartSound(a0, n);
    hide Tracks, RowTimes, KernelTrivial, IsInverse;
    for col := 0 to n
      invariant Sound(a[..], inv[..], a0, n) && UnitColumns(a[..], n, col)
    {
      hide Reflects, UnitColumns;
      var found := PlacePivot(a, inv, a0, n, col);
      if !found {
        NoPivot(a[..], a0, n, col);
        return false, [];
      }
      Eliminate(a, inv, a0, n, col);
    }
    some, inverse := true, inv[..];
    Finished(a[..], inverse, a0, n);
  }

  lemma StartSound(a0: Matrix, n: nat)
    requires Square(a0, n)
    ensures Sound(a0, Identity(n), a0, n)
  {
    forall i | 0 <= i < n
      ensures RowTimes(Identity(n)[i], a0, n, n) == a0[i]
    {
      RowTimesUnit(a0, n, i, n);
    }
  }

  lemma SwapKeepsUnits(a: Matrix, n: nat, col: nat, p: nat)
    requires Square(a, n) && col < p < n && UnitColumns(a, n, col)
    ensures var s := Swapped(a, p, col);
            Square(s, n) && UnitColumns(s, n, col) && s[col] == a[p]
  {}

  /** The vector killed by a matrix whose column col has no pivot. */
  function KernelVector(a: Matrix, n: nat, col: nat): (x: Vec)
    requires Square(a, n) && col < n
    ensures |x| == n
  {
    seq(n, i requires 0 <= i < n => if i == col then 1 else if i < col then Neg(a[i][col]) else 0)
  }

  lemma {:induction false} KernelDot(a: Matrix, n: nat, col: nat, i: nat, k: nat)
    requires Square(a, n) && col < n && i < n && k <= n && UnitColumns(a, n, col)
    ensures Dot(a[i], KernelVector(a, n, col), k)
         == Add(if i < k && i < col then Neg(a[i][col]) else 0, if col < k then a[i][col] else 0)
  {
    if k != 0 {
      KernelDot(a, n, col, i, k - 1);
      var x := KernelVector(a, n, col);
      MulOne(a[i][k - 1]);
      MulOne(x[k - 1]);
    }
    hide Mul;
  }

  lemma NoPivot(a: Matrix, a0: Matrix, n: nat, col: nat)
    requires Square(a, n) && Square(a0, n) && Reflects(a, a0, n)
    requires col < n && UnitColumns(a, n, col)
    requires forall r :: col <= r < n ==> a[r][col] == 0
    ensures !KernelTrivial(a0, n)
  {
    var x := KernelVector(a, n, col);
    forall i | 0 <= i < n
      ensures Dot(a[i], x, n) == 0
    {
      KernelDot(a, n, col, i, n);
    }
    assert Kills(a, n, x);
    assert x[col] == 1 && Zeros(n)[col] == 0;
  }

  /** Left inverse on rows, right inverse on vectors. */
  ghost predicate IsInverse(inv: Matrix, a: Matrix, n: nat)
    requires Square(a, n)
  {
    && Square(inv, n)
    && (forall i :: 0 <= i < n ==> RowTimes(inv[i], a, n, n) == Unit(n, i))
    && (forall b: Vec :: |b| == n ==> MatVec(a, MatVec(inv, b)) == b && MatVec(inv, MatVec(a, b)) == b)
  }

  lemma Finished(a: Matrix, inv: Matrix, a0: Matrix, n: nat)
    requires Sound(a, inv, a0, n) && UnitColumns(a, n, n)
    ensures IsInverse(inv, a0, n) && KernelTrivial(a0, n)
  {
    forall i | 0 <= i < n
      ensures RowTimes(inv[i], a0, n, n) == Unit(n, i)
    {
      assert a[i] == Unit(n, i);
    }
    forall b: Vec | |b| == n
      ensures MatVec(a0, MatVec(inv, b)) == b && MatVec(inv, MatVec(a0, b)) == b
    {
      LeftInverse(inv, a0, n, b);
      RightInverse(inv, a0, n, b);
    }
    forall x: Vec | |x| == n && Kills(a0, n, x)
      ensures x == Zeros(n)
    {
      LeftInverse(inv, a0, n, x);
      assert MatVec(a0, x) == Zeros(n);
      MatVecZeros(inv, n);
    }
  }

  lemma MatVecZeros(m: Matrix, n: nat)
    requires Square(m, n)
    ensures MatVec(m, Zeros(n)) == Zeros(n)
  {
    forall i | 0 <= i < n
      ensures Dot(m[i], Zeros(n), n) == 0
    {
      DotComm(m[i], Zeros(n), n);
      DotZeros(m[i], n, n);
    }
  }

  lemma LeftInverse(inv: Matrix, a0: Matrix, n: nat, b: Vec)
    requires Square(inv, n) && Square(a0, n) && |b| == n
    requires forall i :: 0 <= i < n ==> RowTimes(inv[i], a0, n, n) == Unit(n, i)
    ensures MatVec(inv, MatVec(a0, b)) == b
  {
    forall i | 0 <= i < n
      ensures Dot(inv[i], MatVec(a0, b), n) == b[i]
    {
      RowTimesDot(inv[i], a0, n, b, n);
      DotUnit(b, n, i, n);
    }
  }

  lemma MatVecMinus(m: Matrix, n: nat, x: Vec, y: Vec)
    requires Square(m, n) && |x| == |y| == n
    ensures MatVec(m, Minus(x, y)) == Minus(MatVec(m, x), MatVec(m, y))
  {
    forall i | 0 <= i < n
      ensures Dot(m[i], Minus(x, y), n) == Sub(Dot(m[i], x, n), Dot(m[i], y, n))
    {
      DotComm(m[i], Minus(x, y), n);
      DotComm(m[i], x, n);
      DotComm(m[i], y, n);
      DotMinus(x, y, m[i], n);
    }
  }

  lemma RightInverse(inv: Matrix, a0: Matrix, n: nat, b: Vec)
    requires Square(inv, n) && Square(a0, n) && |b| == n && Reflects(inv, Identity(n), n)
    requires forall i :: 0 <= i < n ==> RowTimes(inv[i], a0, n, n) == Unit(n, i)
    ensures MatVec(a0, MatVec(inv, b)) == b
  {
    var c := MatVec(a0, MatVec(inv, b));
    LeftInverse(inv, a0, n, MatVec(inv, b));
    MatVecMinus(inv, n, c, b);
    var e := Minus(c, b);
    assert Kills(inv, n, e) by {
      forall i | 0 <= i < n
        ensures Dot(inv[i], e, n) == 0
      {
        assert MatVec(inv, e)[i] == 0;
      }
    }
    IdentityKillsZeros(n, e);
    PlusMinus(c, b);
    PlusZeros(b);
  }
}
