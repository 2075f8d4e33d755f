/** ABBA commitments: sums of quaternion commutators, stored compressed. */
module Abba {
  import opened Field
  import opened Vectors
  import opened Ring
  import opened Rotations
  import opened Multiply
  import opened Matrices
  import opened Quaternion
  import A = AntiFixed
  import Transform

  const T0_DIM: nat := A.N_REAL + D

  /** Traceless elements: 27 coordinates of the first component, then the second one. */
  type Traceless = v: Vec | |v| == T0_DIM witness Zeros(T0_DIM)

  function Compress(q: Quat): Traceless { A.Coords(q.a0) + q.a1 }

  /** The stored layout: coefficients 0..13 and 28..40 of the first component, then the second one. */
  lemma CompressLayout(q: Quat)
    ensures forall i :: 0 <= i < 14 ==> Compress(q)[i] == q.a0[i]
    ensures forall i :: 28 <= i < 41 ==> Compress(q)[i - 14] == q.a0[i]
    ensures forall j :: 0 <= j < D ==> Compress(q)[27 + j] == q.a1[j]
  {}

  function Expand(basis: seq<Rq>, t: Traceless): Quat
    requires |basis| == A.N_REAL
  {
    Quat(A.Combination(basis, t[..A.N_REAL], A.N_REAL), t[A.N_REAL..])
  }

  /** `from_components` with the projection rows of the pivots. */
  method FromComponents(pivots: seq<nat>, q: Quat) returns (t: Traceless)
    requires |pivots| == A.N_REAL && forall i :: 0 <= i < A.N_REAL ==> pivots[i] == A.Pivot(i)
    ensures t == Compress(q)
  {
    var coords: Vec := [];
    for i := 0 to A.N_REAL
      invariant |coords| == i && forall k :: 0 <= k < i ==> coords[k] == q.a0[A.Pivot(k)]
    {
      var acc: Fq := 0;
      for j := 0 to D
        invariant acc == Dot(Unit(D, A.Pivot(i)), q.a0, j)
      {
        acc := Add(acc, Mul(if j == pivots[i] then 1 else 0, q.a0[j]));
      }
      DotUnit(q.a0, D, A.Pivot(i), D);
      coords := coords + [acc];
    }
    assert coords == A.Coords(q.a0);
    t := coords + q.a1;
  }

  /** `to_components`: the embedding matrix is the transposed basis. */
  method ToComponents(basis: seq<Rq>, t: Traceless) returns (q: Quat)
    requires |basis| == A.N_REAL
    ensures q == Expand(basis, t)
  {
    hide Mul, Add, Plus, Scale;
    var x0 := Zero;
    for j := 0 to D
      invariant forall k :: 0 <= k < j ==> x0[k] == A.Combination(basis, t[..A.N_REAL], A.N_REAL)[k]
    {
      var acc: Fq := 0;
      for i := 0 to A.N_REAL
        invariant acc == A.Combination(basis, t[..A.N_REAL], i)[j]
      {
        CombinationStep(basis, t[..A.N_REAL], i, j);
        acc := Add(acc, Mul(basis[i][j], t[i]));
      }
      x0 := x0[j := acc];
    }
    q := Quat(x0, t[A.N_REAL..]);
  }

  lemma CombinationStep(basis: seq<Rq>, c: Vec, i: nat, j: nat)
    requires i < |basis| && i < |c| && j < D
    ensures A.Combination(basis, c, 0)[j] == 0
    ensures A.Combination(basis, c, i + 1)[j] == Add(A.Combination(basis, c, i)[j], Mul(basis[i][j], c[i]))
  {
    MulComm(basis[i][j], c[i]);
    hide Mul, Add;
  }

  /** Compression loses nothing on traceless elements. */
  lemma ExpandCompress(basis: seq<Rq>, q: Quat)
    requires A.IsBasis(basis) && AntiFixed(q.a0)
    ensures Expand(basis, Compress(q)) == q
  {
    assert Compress(q)[..A.N_REAL] == A.Coords(q.a0);
  }

  /** Every compressed element is one of a traceless element. */
  lemma CompressExpand(basis: seq<Rq>, t: Traceless)
    requires A.IsBasis(basis)
    ensures AntiFixed(Expand(basis, t).a0) && Compress(Expand(basis, t)) == t
  {
    var c := t[..A.N_REAL];
    CombinationAntiFixed(basis, c, A.N_REAL);
    forall k | 0 <= k < A.N_REAL
      ensures A.Combination(basis, c, A.N_REAL)[A.Pivot(k)] == c[k]
    {
      CombinationCoordinate(basis, c, k, A.N_REAL);
    }
    assert A.Coords(A.Combination(basis, c, A.N_REAL)) == c;
  }

  lemma {:induction false} CombinationAntiFixed(basis: seq<Rq>, c: Vec, n: nat)
    requires A.IsBasis(basis) && |c| == A.N_REAL && n <= A.N_REAL
    ensures AntiFixed(A.Combination(basis, c, n))
  {
    if n == 0 {
      ThetaZero();
      assert Negate(Zero) == Zero;
    } else {
      CombinationAntiFixed(basis, c, n - 1);
      A.AntiFixedScale(c[n - 1], basis[n - 1]);
      AntiFixedPlus(A.Combination(basis, c, n - 1), Scale(c[n - 1], basis[n - 1]));
    }
    hide Theta, Scale, Plus;
  }

  lemma AntiFixedPlus(a: Rq, b: Rq)
    requires AntiFixed(a) && AntiFixed(b)
    ensures AntiFixed(Plus(a, b))
  {
    ThetaPlus(a, b);
    A.MinusPlus(Zero, Zero, a, b);
    PlusZeros(Zero);
    hide Theta, Plus, Minus;
  }

  lemma {:induction false} CombinationCoordinate(basis: seq<Rq>, c: Vec, k: nat, n: nat)
    requires A.IsBasis(basis) && |c| == A.N_REAL && k < A.N_REAL && n <= A.N_REAL
    ensures A.Combination(basis, c, n)[A.Pivot(k)] == if k < n then c[k] else 0
  {
    if n != 0 {
      CombinationCoordinate(basis, c, k, n - 1);
      MulOne(c[n - 1]);
    }
    hide Mul;
  }

  lemma CompressPlus(p: Quat, q: Quat)
    ensures Compress(QPlus(p, q)) == Plus(Compress(p), Compress(q))
  {}

  // ----- commitments -----

  /** Keys: kappa rows of m quaternions. */
  datatype PP = PP(kappa: nat, m: nat, rows: seq<seq<Quat>>) {
    ghost predicate Valid() { |rows| == kappa && forall i :: 0 <= i < kappa ==> |rows[i]| == m }
  }

  const QZERO := Quat(Zero, Zero)

  /** The sum of the commutators of the first n columns. */
  function RowSum(keys: seq<Quat>, z: seq<Rq>, n: nat): Quat
    requires n <= |keys| && n <= |z|
  {
    if n == 0 then QZERO else QPlus(RowSum(keys, z, n - 1), Commutator(keys[n - 1], Embed(z[n - 1])))
  }

  function AbbaSpec(rows: seq<seq<Quat>>, z: seq<Rq>): (c: seq<Traceless>)
    requires forall i :: 0 <= i < |rows| ==> |rows[i]| == |z|
    ensures |c| == |rows|
  {
    seq(|rows|, i requires 0 <= i < |rows| => Compress(RowSum(rows[i], z, |z|)))
  }

  datatype Bits = Bits(positions: seq<nat>, binary: bool)

  /** Nonzero positions of a column, and whether all entries are zero or one. */
  method CollectBits(col: Rq) returns (b: Bits)
    ensures forall i :: 0 <= i < |b.positions| ==> b.positions[i] < D
    ensures b.positions == [] <==> col == Zero
    ensures b.binary ==> BitsSum(b.positions) == col
  {
    hide Plus, Mono;
    var positions: seq<nat>, binary := [], true;
    assert Filled(col, 0) == Zero;
    for t := 0 to D
      invariant forall i :: 0 <= i < |positions| ==> positions[i] < D
      invariant positions == [] <==> forall k :: 0 <= k < t ==> col[k] == 0
      invariant binary ==> BitsSum(positions) == Filled(col, t)
    {
      FilledStep(col, t);
      ghost var before := positions;
      if col[t] != 0 {
        positions := positions + [t];
        assert positions[..|before|] == before;
      }
      binary := binary && (col[t] == 0 || col[t] == 1);
    }
    assert Filled(col, D) == col;
    b := Bits(positions, binary);
  }

  /** The first n coefficients. */
  function Filled(col: Rq, n: nat): Rq {
    seq(D, i requires 0 <= i < D => if i < n then col[i] else 0)
  }

  lemma FilledStep(col: Rq, t: nat)
    requires t < D
    ensures col[t] == 0 ==> Filled(col, t + 1) == Filled(col, t)
    ensures col[t] == 1 ==> Filled(col, t + 1) == Plus(Filled(col, t), Mono(t))
  {
    if col[t] == 1 {
      forall i | 0 <= i < D
        ensures Filled(col, t + 1)[i] == Add(Filled(col, t)[i], Mono(t)[i])
      {}
    }
  }

  /** One column of the commitment: sparse additions for binary columns, full products otherwise. */
  method ColumnCommutator(key: Quat, col: Rq, b: Bits, pivots: seq<nat>) returns (t: Traceless)
    requires |pivots| == A.N_REAL && forall i :: 0 <= i < A.N_REAL ==> pivots[i] == A.Pivot(i)
    requires forall i :: 0 <= i < |b.positions| ==> b.positions[i] < D
    requires b.binary ==> BitsSum(b.positions) == col
    ensures t == Compress(Commutator(key, Embed(col)))
  {
    hide Commutator, Compress;
    if b.binary {
      var c0, c1 := SparseCommutator(key, b.positions);
      t := FromComponents(pivots, Quat(c0, c1));
    } else {
      var q := FullCommutator(key, Embed(col));
      t := FromComponents(pivots, q);
    }
  }

  /** `QuatEl::commutator` through two ring-by-ring products. */
  method FullCommutator(a: Quat, b: Quat) returns (q: Quat)
    ensures q == Commutator(a, b)
  {
    hide Theta, Times, Plus, Minus;
    var ab := QuatProduct(a, b);
    var ba := QuatProduct(b, a);
    q := QMinus(ab, ba);
  }

  method QuatProduct(a: Quat, b: Quat) returns (q: Quat)
    ensures q == QMul(a, b)
  {
    hide Theta, Times, Plus, Minus;
    var ta0 := ApplyTheta(a.a0);
    var ta1 := ApplyTheta(a.a1);
    var p := MulRq(a.a0, b.a0);
    var r := MulRq(ta1, b.a1);
    var s := MulRq(a.a1, b.a0);
    var t := MulRq(ta0, b.a1);
    q := Quat(Minus(p, r), Plus(s, t));
  }

  lemma ZeroColumn(key: Quat)
    ensures Commutator(key, Embed(Zero)) == QZERO
  {
    CommutatorWithColumn(key, Zero);
    ThetaZero();
    TimesOne(key.a1);
    TimesOne(Theta(key.a1));
    TimesOne(Minus(Theta(key.a0), key.a0));
    hide Theta, Times;
    assert Minus(Zero, Zero) == Zero;
  }

  /** `try_commit` on columns: zero, binary and general columns all add their commutator. */
  method Commit(pp: PP, z: seq<Rq>) returns (c: seq<Traceless>)
    requires pp.Valid() && |z| == pp.m
    ensures c == AbbaSpec(pp.rows, z)
  {
    var basis, pivots := A.BuildAntiFixedBasis();
    hide A.IsBasis, Commutator, Compress;
    c := [];
    for i := 0 to pp.kappa
      invariant |c| == i && forall k :: 0 <= k < i ==> c[k] == Compress(RowSum(pp.rows[k], z, pp.m))
    {
      var acc: Traceless := Zeros(T0_DIM);
      CompressZero();
      for j := 0 to pp.m
        invariant acc == Compress(RowSum(pp.rows[i], z, j))
      {
        CompressPlus(RowSum(pp.rows[i], z, j), Commutator(pp.rows[i][j], Embed(z[j])));
        var bits := CollectBits(z[j]);
        if bits.positions == [] {
          ZeroColumn(pp.rows[i][j]);
          CompressZero();
          PlusZeros(acc);
          continue;
        }
        var t := ColumnCommutator(pp.rows[i][j], z[j], bits, pivots);
        acc := Plus(acc, t);
      }
      c := c + [acc];
    }
  }

  lemma CompressZero()
    ensures Compress(QZERO) == Zeros(T0_DIM)
  {}

  // ----- S-action -----

  function QScale(alpha: Rq, q: Quat): Quat { Quat(Times(alpha, q.a0), Times(alpha, q.a1)) }

  /** `scale_ok`. */
  method ScaleOk(basis: seq<Rq>, pivots: seq<nat>, alpha: Rq, t: Traceless) returns (r: Traceless)
    requires |basis| == A.N_REAL
    requires |pivots| == A.N_REAL && forall i :: 0 <= i < A.N_REAL ==> pivots[i] == A.Pivot(i)
    ensures r == Compress(QScale(alpha, Expand(basis, t)))
  {
    hide Times, Compress, Expand;
    var q := ToComponents(basis, t);
    var x0 := MulRq(alpha, q.a0);
    var x1 := MulRq(alpha, q.a1);
    r := FromComponents(pivots, Quat(x0, x1));
  }

  /** Every row holds alpha times the traceless element it stands for. */
  ghost predicate IsScaled(alpha: Rq, c: seq<Traceless>, out: seq<Traceless>) {
    && |out| == |c|
    && forall i, q: Quat :: 0 <= i < |c| && AntiFixed(q.a0) && Compress(q) == c[i] ==>
         out[i] == Compress(QScale(alpha, q))
  }

  /** `s_mul`: row by row, into a zero commitment. */
  method SMul(alpha: Rq, c: seq<Traceless>) returns (out: seq<Traceless>)
    ensures IsScaled(alpha, c, out)
  {
    var basis, pivots := A.BuildAntiFixedBasis();
    hide A.IsBasis, Compress, Expand, QScale, AntiFixed;
    BasisSize(basis);
    out := [];
    for i := 0 to |c|
      invariant |out| == i
      invariant forall k :: 0 <= k < i ==> out[k] == Compress(QScale(alpha, Expand(basis, c[k])))
    {
      var scaled := ScaleOk(basis, pivots, alpha, c[i]);
      PlusZeros(scaled);
      out := out + [Plus(Zeros(T0_DIM), scaled)];
    }
    forall i, q: Quat | 0 <= i < |c| && AntiFixed(q.a0) && Compress(q) == c[i]
      ensures out[i] == Compress(QScale(alpha, q))
    {
      ExpandCompress(basis, q);
    }
  }

  lemma BasisSize(basis: seq<Rq>)
    requires A.IsBasis(basis)
    ensures |basis| == A.N_REAL
  {}

  lemma QScalePlus(alpha: Rq, p: Quat, q: Quat)
    ensures QScale(alpha, QPlus(p, q)) == QPlus(QScale(alpha, p), QScale(alpha, q))
  {
    hide Times, Plus;
    TimesPlus(alpha, p.a0, q.a0);
    TimesPlus(alpha, p.a1, q.a1);
  }

  /** A scalar fixed by theta moves through the commutator with a column. */
  lemma CommutatorScales(a: Quat, alpha: Rq, z: Rq)
    requires Theta(alpha) == alpha
    ensures Commutator(a, Embed(Times(alpha, z))) == QScale(alpha, Commutator(a, Embed(z)))
  {
    hide Times, Minus, Commutator, Theta;
    CommutatorWithColumn(a, Times(alpha, z));
    CommutatorWithColumn(a, z);
    ThetaTimes(alpha, z);
    PullOut(a.a1, alpha, Theta(z));
    PullOut(Theta(a.a1), alpha, z);
    TimesMinus(alpha, Times(a.a1, Theta(z)), Times(Theta(a.a1), z));
    TimesAssoc(alpha, z, Minus(Theta(a.a0), a.a0));
  }

  lemma PullOut(x: Rq, alpha: Rq, y: Rq)
    ensures Times(x, Times(alpha, y)) == Times(alpha, Times(x, y))
  {
    hide Times;
    TimesAssoc(x, alpha, y);
    TimesComm(x, alpha);
    TimesAssoc(alpha, x, y);
  }

  lemma {:induction false} RowSumTraceless(keys: seq<Quat>, z: seq<Rq>, n: nat)
    requires n <= |keys| && n <= |z|
    ensures AntiFixed(RowSum(keys, z, n).a0)
  {
    hide Theta, Commutator, Plus;
    if n == 0 {
      ThetaZero();
      assert Negate(Zero) == Zero;
    } else {
      RowSumTraceless(keys, z, n - 1);
      CommutatorIsTraceless(keys[n - 1], Embed(z[n - 1]));
      AntiFixedPlus(RowSum(keys, z, n - 1).a0, Commutator(keys[n - 1], Embed(z[n - 1])).a0);
    }
  }

  function ScaleColumns(alpha: Rq, z: seq<Rq>): (w: seq<Rq>)
    ensures |w| == |z|
  {
    seq(|z|, j requires 0 <= j < |z| => Times(alpha, z[j]))
  }

  lemma {:induction false} RowSumScales(keys: seq<Quat>, alpha: Rq, z: seq<Rq>, n: nat)
    requires n <= |keys| && n <= |z| && Theta(alpha) == alpha
    ensures RowSum(keys, ScaleColumns(alpha, z), n) == QScale(alpha, RowSum(keys, z, n))
  {
    hide Commutator, Times, Plus, Theta;
    if n == 0 {
      TimesOne(alpha);
    } else {
      RowSumScales(keys, alpha, z, n - 1);
      CommutatorScales(keys[n - 1], alpha, z[n - 1]);
      QScalePlus(alpha, RowSum(keys, z, n - 1), Commutator(keys[n - 1], Embed(z[n - 1])));
    }
  }

  /** The S-homomorphism of ABBA: alpha * commit(Z) == commit(alpha * Z) for real scalars. */
  lemma CommitmentScales(basis: seq<Rq>, rows: seq<seq<Quat>>, alpha: Rq, z: seq<Rq>, i: nat)
    requires A.IsBasis(basis) && Theta(alpha) == alpha
    requires i < |rows| && forall k :: 0 <= k < |rows| ==> |rows[k]| == |z|
    ensures Compress(QScale(alpha, Expand(basis, AbbaSpec(rows, z)[i]))) == AbbaSpec(rows, ScaleColumns(alpha, z))[i]
  {
    hide Theta, Commutator, Compress, Expand;
    RowSumTraceless(rows[i], z, |z|);
    ExpandCompress(basis, RowSum(rows[i], z, |z|));
    RowSumScales(rows[i], alpha, z, |z|);
  }

  /** Committing then scaling is scaling then committing. */
  method CommitThenScale(pp: PP, alpha: Rq, z: seq<Rq>) returns (a: seq<Traceless>, b: seq<Traceless>)
    requires pp.Valid() && |z| == pp.m && Theta(alpha) == alpha
    ensures a == b == AbbaSpec(pp.rows, ScaleColumns(alpha, z))
  {
    hide Theta, Compress, QScale, RowSum, AntiFixed;
    var c := Commit(pp, z);
    a := SMul(alpha, c);
    b := Commit(pp, ScaleColumns(alpha, z));
    forall i | 0 <= i < |c|
      ensures a[i] == b[i]
    {
      RowSumTraceless(pp.rows[i], z, |z|);
      RowSumScales(pp.rows[i], alpha, z, |z|);
    }
  }

  /** alpha * commit(z) == commit(alpha z) for one key and one column. */
  ghost predicate Homomorphic(basis: seq<Rq>, alpha: Rq, key: Quat, z: Rq)
    requires A.IsBasis(basis)
  {
    Compress(QScale(alpha, Expand(basis, AbbaSpec([[key]], [z])[0]))) == AbbaSpec([[key]], [Times(alpha, z)])[0]
  }

  lemma RealScalarIsHomomorphic(basis: seq<Rq>, alpha: Rq, key: Quat, z: Rq)
    requires A.IsBasis(basis) && Theta(alpha) == alpha
    ensures Homomorphic(basis, alpha, key, z)
  {
    hide Theta, Times, Compress, Expand, AbbaSpec, QScale, A.IsBasis;
    CommitmentScales(basis, [[key]], alpha, [z], 0);
    assert ScaleColumns(alpha, [z]) == [Times(alpha, z)];
  }

  lemma HomomorphicIsReal(basis: seq<Rq>, alpha: Rq)
    requires A.IsBasis(basis)
    requires forall key: Quat, z: Rq :: Homomorphic(basis, alpha, key, z)
    ensures Theta(alpha) == alpha
  {
    hide Homomorphic, Theta, A.IsBasis, ShiftN;
    var d := Minus(Theta(alpha), alpha);
    forall k | 0 <= k < D
      ensures ShiftN(k, d)[0] == 0
    {
      assert Homomorphic(basis, alpha, Quat(Zero, Mono(k)), One);
      FirstCoordinate(basis, alpha, k);
    }
    Transform.NoCtIsZero(d);
    PlusMinus(Theta(alpha), alpha);
    PlusZeros(alpha);
  }

  /** The scalars the action is a homomorphism for are exactly those fixed by theta. */
  lemma OnlyRealScalars(basis: seq<Rq>, alpha: Rq)
    requires A.IsBasis(basis)
    ensures (forall key: Quat, z: Rq :: Homomorphic(basis, alpha, key, z)) <==> Theta(alpha) == alpha
  {
    hide Homomorphic, Theta, A.IsBasis;
    if Theta(alpha) == alpha {
      forall key: Quat, z: Rq
        ensures Homomorphic(basis, alpha, key, z)
      {
        RealScalarIsHomomorphic(basis, alpha, key, z);
      }
    }
    if forall key: Quat, z: Rq :: Homomorphic(basis, alpha, key, z) {
      HomomorphicIsReal(basis, alpha);
    }
  }

  lemma SingleRow(key: Quat, z: Rq)
    ensures AbbaSpec([[key]], [z])[0] == Compress(Commutator(key, Embed(z)))
  {
    hide Commutator;
    var q := Commutator(key, Embed(z));
    assert RowSum([key], [z], 1) == QPlus(RowSum([key], [z], 0), q);
    PlusZeros(q.a0);
    PlusZeros(q.a1);
  }

  /** With the key u X^k and the column 1, the first coordinate tells theta(alpha) from alpha. */
  lemma FirstCoordinate(basis: seq<Rq>, alpha: Rq, k: nat)
    requires A.IsBasis(basis) && k < D
    requires Homomorphic(basis, alpha, Quat(Zero, Mono(k)), One)
    ensures ShiftN(k, Minus(Theta(alpha), alpha))[0] == 0
  {
    var key, x := Quat(Zero, Mono(k)), Mono(k);
    SingleRow(key, One);
    SingleRow(key, Times(alpha, One));
    TimesOne(alpha);
    CommutatorIsTraceless(key, Embed(One));
    ExpandCompress(basis, Commutator(key, Embed(One)));
    CommutatorWithColumn(key, One);
    CommutatorWithColumn(key, alpha);
    ThetaOne();
    TimesOne(x);
    TimesOne(Theta(x));
    hide Theta, Times, Expand, Commutator, AbbaSpec, A.IsBasis;
    var lhs := Times(alpha, Minus(x, Theta(x)));
    var rhs := Minus(Times(x, Theta(alpha)), Times(Theta(x), alpha));
    assert lhs[0] == rhs[0] by {
      FirstOfCompress(Quat(lhs, Times(alpha, Commutator(key, Embed(One)).a1)));
      FirstOfCompress(Commutator(key, Embed(alpha)));
    }
    TimesMinus(alpha, x, Theta(x));
    TimesComm(alpha, x);
    TimesComm(alpha, Theta(x));
    TimesMinus(x, Theta(alpha), alpha);
    Transform.MonoTimes(k, Minus(Theta(alpha), alpha));
    SameRest(Times(x, Theta(alpha))[0], Times(x, alpha)[0], Times(Theta(x), alpha)[0]);
  }

  lemma FirstOfCompress(q: Quat)
    ensures Compress(q)[0] == q.a0[0]
  {}

  lemma SameRest(p: Fq, q: Fq, r: Fq)
    requires Sub(q, r) == Sub(p, r)
    ensures Sub(p, q) == 0
  {}
}
