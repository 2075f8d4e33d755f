/** CCS structures, their row-wise check, and block-diagonal composition. */
module DirectSum {
  import opened Field
  import opened ExtField
  import opened Csc

  // ----- sparse polynomials -----

  datatype Term = Term(coeff: Fq, exps: seq<nat>)

  datatype SparsePoly = SparsePoly(t: nat, terms: seq<Term>) {
    ghost predicate Valid() {
      forall i :: 0 <= i < |terms| ==> |terms[i].exps| == t
    }
  }

  function KPow(x: K, n: nat): K { if n == 0 then KOne else KMul(KPow(x, n - 1), x) }

  /** Exponents add: n factors x. */
  lemma {:induction false} PowerLaw(x: K, m: nat, n: nat)
    ensures KPow(x, 0) == KOne && KPow(x, 1) == x
    ensures KPow(x, m + n) == KMul(KPow(x, m), KPow(x, n))
  {
    hide KMul;
    KMulOne(x);
    KMulOne(KPow(x, m));
    assert KPow(x, 1) == KMul(KPow(x, 0), x);
    if n != 0 {
      PowerLaw(x, m, n - 1);
      KMulAssoc(KPow(x, m), KPow(x, n - 1), x);
    }
  }

  /** The monomial over the first n variables, times the coefficient. */
  function TermAt(term: Term, x: seq<K>, n: nat): K
    requires n <= |term.exps| && n <= |x|
  {
    if n == 0 then FromBase(term.coeff)
    else KMul(TermAt(term, x, n - 1), KPow(x[n - 1], term.exps[n - 1]))
  }

  function PolyAt(terms: seq<Term>, x: seq<K>, n: nat): K
    requires n <= |terms| && forall i :: 0 <= i < |terms| ==> |terms[i].exps| == |x|
  {
    if n == 0 then KZero
    else KAdd(PolyAt(terms, x, n - 1), TermAt(terms[n - 1], x, |x|))
  }

  /** Value of f at x. */
  function EvalPoly(f: SparsePoly, x: seq<K>): K
    requires f.Valid() && |x| == f.t
  {
    PolyAt(f.terms, x, |f.terms|)
  }

  /** `SparsePoly::eval`: zero exponents are skipped, powers are repeated products. */
  method PolyEval(f: SparsePoly, x: seq<K>) returns (acc: K)
    requires f.Valid() && |x| == f.t
    ensures acc == EvalPoly(f, x)
  {
    hide KMul, KAdd;
    acc := KZero;
    for i := 0 to |f.terms|
      invariant acc == PolyAt(f.terms, x, i)
    {
      var m := FromBase(f.terms[i].coeff);
      for j := 0 to f.t
        invariant m == TermAt(f.terms[i], x, j)
      {
        KMulOne(m);
        if f.terms[i].exps[j] != 0 {
          var p := Power(x[j], f.terms[i].exps[j]);
          m := KMul(m, p);
        }
      }
      acc := KAdd(acc, m);
    }
  }

  method Power(x: K, pow: nat) returns (p: K)
    requires pow > 0
    ensures p == KPow(x, pow)
  {
    hide KMul;
    p := x;
    KMulOne(x);
    assert KPow(x, 1) == KMul(KPow(x, 0), x);
    var e := pow - 1;
    while e > 0
      invariant 0 <= e < pow && p == KPow(x, pow - e)
    {
      p := KMul(p, x);
      e := e - 1;
    }
  }

  // ----- structures -----

  datatype Ccs = Ccs(matrices: seq<CcsMatrix>, f: SparsePoly, n: nat, m: nat) {
    ghost predicate WellFormed() {
      && f.Valid() && f.t == |matrices|
      && forall j :: 0 <= j < |matrices| ==>
           matrices[j].Valid() && matrices[j].Rows() == n && matrices[j].Cols() == m
    }

    predicate Empty() { n == 0 || m == 0 }

    ghost predicate Valid() { WellFormed() && !Empty() && matrices != [] }

    /** The values (M_1 z)[i], .., (M_t z)[i]. */
    function Point(z: seq<K>, i: nat): (p: seq<K>)
      requires Valid() && |z| == m
      ensures |p| == |matrices|
    {
      seq(|matrices|, j requires 0 <= j < |matrices| => MatRowDot(matrices[j], z, i, m))
    }

    /** f(M z) vanishes on every row. */
    ghost predicate Satisfied(z: seq<K>)
      requires Valid()
    {
      |z| == m && forall i :: 0 <= i < n ==> RowHolds(z, i)
    }

    ghost predicate RowHolds(z: seq<K>, i: nat)
      requires Valid() && |z| == m
    {
      EvalPoly(f, Point(z, i)) == KZero
    }
  }

  datatype CcsError = NoError | LengthMismatch | RowFail(row: nat)

  /** `check_ccs_rowwise_zero`: accepts exactly the satisfying z == x || w. */
  method CheckRowwiseZero(s: Ccs, x: seq<K>, w: seq<K>) returns (e: CcsError)
    requires s.Valid()
    ensures e.NoError? <==> s.Satisfied(x + w)
    ensures e.LengthMismatch? <==> |x| + |w| != s.m
    ensures e.RowFail? ==> e.row < s.n && |x + w| == s.m && !s.RowHolds(x + w, e.row)
    ensures e.RowFail? ==> forall i :: 0 <= i < e.row ==> s.RowHolds(x + w, i)
  {
    if |x| + |w| != s.m {
      return LengthMismatch;
    }
    var z := x + w;
    var mz := Products(s, z);
    hide EvalPoly, MatRowDot;
    for i := 0 to s.n
      invariant forall k :: 0 <= k < i ==> s.RowHolds(z, k)
    {
      var point := seq(|s.matrices|, j requires 0 <= j < |s.matrices| => mz[j][i]);
      assert point == s.Point(z, i);
      var val := PolyEval(s.f, point);
      if val != KZero {
        assert !s.RowHolds(z, i);
        return RowFail(i);
      }
    }
    e := NoError;
  }

  method Products(s: Ccs, z: seq<K>) returns (mz: seq<seq<K>>)
    requires s.Valid() && |z| == s.m
    ensures |mz| == |s.matrices| && forall j :: 0 <= j < |mz| ==> |mz[j]| == s.n
    ensures forall j, i :: 0 <= j < |mz| && 0 <= i < s.n ==> mz[j][i] == MatRowDot(s.matrices[j], z, i, s.m)
  {
    hide MatRowDot, KAdd;
    mz := [];
    for j := 0 to |s.matrices|
      invariant |mz| == j && forall k :: 0 <= k < j ==> |mz[k]| == s.n
      invariant forall k, i :: 0 <= k < j && 0 <= i < s.n ==> mz[k][i] == MatRowDot(s.matrices[k], z, i, s.m)
    {
      var v := new K[s.n](i => KZero);
      MulInto(s.matrices[j], z, v, s.n);
      forall i | 0 <= i < s.n
        ensures v[i] == MatRowDot(s.matrices[j], z, i, s.m)
      {
        KAddZero(MatRowDot(s.matrices[j], z, i, s.m));
      }
      mz := mz + [v[..]];
    }
  }

  // ----- block-diagonal matrices -----

  /** The entry of src embedded at an offset. */
  function Embedded(src: CcsMatrix, dr: nat, dc: nat, r: nat, c: nat): Fq
    requires src.Valid()
  {
    if r >= dr && c >= dc then src.At(r - dr, c - dc) else 0
  }

  /** `embed_matrix_triplets`: triplets that sum to the embedded matrix. */
  method EmbedTriplets(src: CcsMatrix, dr: nat, dc: nat) returns (t: seq<Triplet>)
    requires src.Valid()
    ensures InBounds(t, dr + src.Rows(), dc + src.Cols())
    ensures forall r: nat, c: nat :: SumAt(t, r, c) == Embedded(src, dr, dc, r, c)
  {
    hide SumAt;
    if src.Identity? {
      t := EmbedIdentity(src.n, dr, dc);
    } else {
      t := EmbedSparse(src.csc, dr, dc);
    }
  }

  lemma SingleSum(x: Triplet)
    ensures forall r: nat, c: nat :: SumAt([x], r, c) == if x.row == r && x.col == c then x.val else 0
    ensures forall r: nat, c: nat :: SumAt([], r, c) == 0
  {
    assert [x][..0] == [];
  }

  lemma AppendSum(t: seq<Triplet>, x: Triplet)
    ensures forall r: nat, c: nat :: SumAt(t + [x], r, c) == Add(SumAt(t, r, c), if x.row == r && x.col == c then x.val else 0)
  {
    assert (t + [x])[..|t|] == t;
  }

  method EmbedIdentity(n: nat, dr: nat, dc: nat) returns (t: seq<Triplet>)
    ensures InBounds(t, dr + n, dc + n)
    ensures forall r: nat, c: nat :: SumAt(t, r, c) == Embedded(Identity(n), dr, dc, r, c)
  {
    hide SumAt;
    t := [];
    SingleSum(Triplet(0, 0, 0));
    for i := 0 to n
      invariant InBounds(t, dr + n, dc + n)
      invariant forall r: nat, c: nat :: SumAt(t, r, c) == if dr <= r < dr + i && r - dr == c - dc then 1 else 0
    {
      AppendSum(t, Triplet(dr + i, dc + i, 1));
      t := t + [Triplet(dr + i, dc + i, 1)];
    }
  }

  method EmbedSparse(m: CscMat, dr: nat, dc: nat) returns (t: seq<Triplet>)
    requires m.Valid() && RowsAscend(m)
    ensures InBounds(t, dr + m.nrows, dc + m.ncols)
    ensures forall r: nat, c: nat :: SumAt(t, r, c) == Embedded(Sparse(m), dr, dc, r, c)
  {
    hide SumAt;
    t := [];
    SingleSum(Triplet(0, 0, 0));
    for col := 0 to m.ncols
      invariant InBounds(t, dr + m.nrows, dc + m.ncols)
      invariant forall r: nat, c: nat ::
        SumAt(t, r, c) == if r >= dr && dc <= c < dc + col then m.Entry(r - dr, c - dc) else 0
    {
      t := EmbedColumn(m, dr, dc, col, t);
    }
    forall r: nat, c: nat
      ensures SumAt(t, r, c) == Embedded(Sparse(m), dr, dc, r, c)
    {
      if r >= dr + m.nrows && c >= dc {
        RowsBeyond(m, r - dr, c - dc);
      }
    }
  }

  lemma RowsBeyond(m: CscMat, r: nat, c: nat)
    requires m.Valid() && r >= m.nrows
    ensures m.Entry(r, c) == 0
  {
    if c < m.ncols {
      assert m.colPtr[c] <= m.colPtr[c + 1] <= m.colPtr[m.ncols];
      ColumnBeyond(m, r, m.colPtr[c], m.colPtr[c + 1]);
    }
  }

  lemma {:induction false} ColumnBeyond(m: CscMat, r: nat, lo: nat, k: nat)
    requires m.Valid() && r >= m.nrows && lo <= k <= |m.vals|
    ensures m.ColumnAt(r, lo, k) == 0
    decreases k
  {
    if k != lo {
      ColumnBeyond(m, r, lo, k - 1);
    }
  }

  method EmbedColumn(m: CscMat, dr: nat, dc: nat, col: nat, t0: seq<Triplet>) returns (t: seq<Triplet>)
    requires m.Valid() && col < m.ncols && InBounds(t0, dr + m.nrows, dc + m.ncols)
    requires forall r: nat, c: nat :: c == dc + col ==> SumAt(t0, r, c) == 0
    ensures InBounds(t, dr + m.nrows, dc + m.ncols)
    ensures forall r: nat, c: nat ::
      SumAt(t, r, c) == if c != dc + col then SumAt(t0, r, c) else if r >= dr then m.Entry(r - dr, col) else 0
  {
    hide SumAt;
    t := t0;
    ghost var lo := m.colPtr[col];
    assert m.colPtr[col] <= m.colPtr[col + 1] <= m.colPtr[m.ncols];
    for k := m.colPtr[col] to m.colPtr[col + 1]
      invariant InBounds(t, dr + m.nrows, dc + m.ncols)
      invariant forall r: nat, c: nat ::
        SumAt(t, r, c) == if c != dc + col then SumAt(t0, r, c) else if r >= dr then m.ColumnAt(r - dr, lo, k) else 0
    {
      var x := Triplet(dr + m.rowIdx[k], dc + col, m.vals[k]);
      AppendSum(t, x);
      t := t + [x];
    }
  }

  /** One stacked matrix of the composition. */
  ghost predicate IsStacked(mat: CcsMatrix, src: CcsMatrix, dr: nat, dc: nat, n: nat, m: nat)
    requires src.Valid()
  {
    && mat.Valid() && mat.Rows() == n && mat.Cols() == m
    && forall r: nat, c: nat :: mat.At(r, c) == Embedded(src, dr, dc, r, c)
  }

  method StackOne(src: CcsMatrix, dr: nat, dc: nat, n: nat, m: nat) returns (mat: CcsMatrix)
    requires src.Valid() && dr + src.Rows() <= n && dc + src.Cols() <= m
    ensures IsStacked(mat, src, dr, dc, n, m)
  {
    hide SumAt;
    var t := EmbedTriplets(src, dr, dc);
    var csc := FromTriplets(t, n, m);
    mat := Sparse(csc);
  }

  /** The first t1 matrices hold the top-left blocks, the rest the bottom-right ones. */
  ghost predicate AreStacked(ms: seq<CcsMatrix>, a: Ccs, b: Ccs)
    requires a.Valid() && b.Valid()
  {
    && |ms| == |a.matrices| + |b.matrices|
    && (forall j :: 0 <= j < |a.matrices| ==> IsStacked(ms[j], a.matrices[j], 0, 0, a.n + b.n, a.m + b.m))
    && (forall j :: 0 <= j < |b.matrices| ==>
          IsStacked(ms[|a.matrices| + j], b.matrices[j], a.n, a.m, a.n + b.n, a.m + b.m))
  }

  /** `build_stacked_matrices`. */
  method BuildStacked(a: Ccs, b: Ccs) returns (ms: seq<CcsMatrix>)
    requires a.Valid() && b.Valid()
    ensures AreStacked(ms, a, b)
  {
    hide IsStacked;
    ms := [];
    for j := 0 to |a.matrices|
      invariant |ms| == j
      invariant forall k :: 0 <= k < j ==> IsStacked(ms[k], a.matrices[k], 0, 0, a.n + b.n, a.m + b.m)
    {
      var mat := StackOne(a.matrices[j], 0, 0, a.n + b.n, a.m + b.m);
      ms := ms + [mat];
    }
    for j := 0 to |b.matrices|
      invariant |ms| == |a.matrices| + j
      invariant forall k :: 0 <= k < |a.matrices| ==> IsStacked(ms[k], a.matrices[k], 0, 0, a.n + b.n, a.m + b.m)
      invariant forall k :: 0 <= k < j ==>
        IsStacked(ms[|a.matrices| + k], b.matrices[k], a.n, a.m, a.n + b.n, a.m + b.m)
    {
      var mat := StackOne(b.matrices[j], a.n, a.m, a.n + b.n, a.m + b.m);
      ms := ms + [mat];
    }
  }

  // ----- the combined polynomial -----

  function ZeroExps(n: nat): (e: seq<nat>)
    ensures |e| == n
  {
    seq(n, i => 0)
  }

  /** f1 over the first variables plus beta times f2 over the others. */
  function Combined(f1: SparsePoly, f2: SparsePoly, beta: Fq): (f: SparsePoly)
    requires f1.Valid() && f2.Valid()
    ensures f.Valid() && f.t == f1.t + f2.t
  {
    SparsePoly(f1.t + f2.t,
      seq(|f1.terms|, i requires 0 <= i < |f1.terms| => Term(f1.terms[i].coeff, f1.terms[i].exps + ZeroExps(f2.t)))
      + seq(|f2.terms|, i requires 0 <= i < |f2.terms| =>
          Term(Mul(f2.terms[i].coeff, beta), ZeroExps(f1.t) + f2.terms[i].exps)))
  }

  /** The loops that pad and shift the exponent vectors. */
  method CombineTerms(f1: SparsePoly, f2: SparsePoly, beta: Fq) returns (f: SparsePoly)
    requires f1.Valid() && f2.Valid()
    ensures f == Combined(f1, f2, beta)
  {
    hide Mul;
    var terms: seq<Term> := [];
    ghost var want := Combined(f1, f2, beta).terms;
    for i := 0 to |f1.terms|
      invariant terms == want[..i]
    {
      terms := terms + [Term(f1.terms[i].coeff, f1.terms[i].exps + ZeroExps(f2.t))];
    }
    for i := 0 to |f2.terms|
      invariant terms == want[..|f1.terms| + i]
    {
      terms := terms + [Term(Mul(f2.terms[i].coeff, beta), ZeroExps(f1.t) + f2.terms[i].exps)];
    }
    f := SparsePoly(f1.t + f2.t, terms);
  }

  lemma {:induction false} TermPadded(term: Term, x: seq<K>, y: seq<K>, n: nat)
    requires |term.exps| == |x| && n <= |x| + |y|
    ensures TermAt(Term(term.coeff, term.exps + ZeroExps(|y|)), x + y, n) == TermAt(term, x, if n < |x| then n else |x|)
  {
    hide KMul;
    if n != 0 {
      TermPadded(term, x, y, n - 1);
      KMulOne(TermAt(term, x, |x|));
      if n > |x| {
        assert (term.exps + ZeroExps(|y|))[n - 1] == 0;
      }
    }
  }

  lemma {:induction false} TermShifted(term: Term, beta: Fq, x: seq<K>, y: seq<K>, n: nat)
    requires |term.exps| == |y| && n <= |x| + |y|
    ensures TermAt(Term(Mul(term.coeff, beta), ZeroExps(|x|) + term.exps), x + y, n)
         == KMul(FromBase(beta), TermAt(term, y, if n < |x| then 0 else n - |x|))
  {
    if n == 0 {
      BaseIsHomomorphic(term.coeff, beta);
      KMulComm(FromBase(beta), FromBase(term.coeff));
    } else {
      TermShifted(term, beta, x, y, n - 1);
      var p := KMul(FromBase(beta), TermAt(term, y, if n - 1 < |x| then 0 else n - 1 - |x|));
      KMulOne(p);
      if n <= |x| {
        assert (ZeroExps(|x|) + term.exps)[n - 1] == 0;
      } else {
        var e := n - 1 - |x|;
        assert (ZeroExps(|x|) + term.exps)[n - 1] == term.exps[e] && (x + y)[n - 1] == y[e];
        KMulAssoc(FromBase(beta), TermAt(term, y, e), KPow(y[e], term.exps[e]));
      }
    }
    hide KMul, Mul;
  }

  lemma {:induction false} CombinedUpTo(f1: SparsePoly, f2: SparsePoly, beta: Fq, x: seq<K>, y: seq<K>, n: nat)
    requires f1.Valid() && f2.Valid() && |x| == f1.t && |y| == f2.t
    requires n <= |f1.terms| + |f2.terms|
    ensures PolyAt(Combined(f1, f2, beta).terms, x + y, n)
         == if n <= |f1.terms| then PolyAt(f1.terms, x, n)
            else KAdd(EvalPoly(f1, x), KMul(FromBase(beta), PolyAt(f2.terms, y, n - |f1.terms|)))
  {
    hide KMul, KAdd, Mul, TermAt;
    if n != 0 {
      CombinedUpTo(f1, f2, beta, x, y, n - 1);
      if n <= |f1.terms| {
        TermPadded(f1.terms[n - 1], x, y, |x| + |y|);
      } else {
        var i := n - 1 - |f1.terms|;
        TermShifted(f2.terms[i], beta, x, y, |x| + |y|);
        var p, q := PolyAt(f2.terms, y, i), TermAt(f2.terms[i], y, |y|);
        var b := FromBase(beta);
        KMulAdd(b, p, q);
        KMulOne(b);
        KAddZero(EvalPoly(f1, x));
        KAddAssoc(EvalPoly(f1, x), KMul(b, p), KMul(b, q));
      }
    }
  }

  /** The combined polynomial splits over its two groups of variables. */
  lemma CombinedValue(f1: SparsePoly, f2: SparsePoly, beta: Fq, x: seq<K>, y: seq<K>)
    requires f1.Valid() && f2.Valid() && |x| == f1.t && |y| == f2.t
    ensures EvalPoly(Combined(f1, f2, beta), x + y) == KAdd(EvalPoly(f1, x), KMul(FromBase(beta), EvalPoly(f2, y)))
  {
    hide KMul, KAdd, Mul, TermAt;
    CombinedUpTo(f1, f2, beta, x, y, |f1.terms| + |f2.terms|);
    if f2.terms == [] {
      KMulOne(FromBase(beta));
      KAddZero(EvalPoly(f1, x));
    }
  }

  // ----- the composition -----

  datatype SumResult = Composed(s: Ccs) | InvalidStructure | PolyArity

  /** `CcsStructure::new_sparse`. */
  method NewSparse(matrices: seq<CcsMatrix>, f: SparsePoly) returns (r: SumResult)
    requires f.Valid() && forall j :: 0 <= j < |matrices| ==> matrices[j].Valid()
    ensures r.Composed? ==> r.s.Valid() && r.s.matrices == matrices && r.s.f == f
    ensures r.PolyArity? <==>
      && matrices != [] && matrices[0].Rows() > 0 && matrices[0].Cols() > 0 && f.t != |matrices|
      && forall j :: 0 <= j < |matrices| ==>
           matrices[j].Rows() == matrices[0].Rows() && matrices[j].Cols() == matrices[0].Cols()
    ensures r.Composed? <==>
      && matrices != [] && matrices[0].Rows() > 0 && matrices[0].Cols() > 0 && f.t == |matrices|
      && forall j :: 0 <= j < |matrices| ==>
           matrices[j].Rows() == matrices[0].Rows() && matrices[j].Cols() == matrices[0].Cols()
  {
    if matrices == [] {
      return InvalidStructure;
    }
    var n, m := matrices[0].Rows(), matrices[0].Cols();
    for j := 0 to |matrices|
      invariant forall k :: 0 <= k < j ==> matrices[k].Rows() == n && matrices[k].Cols() == m && n > 0 && m > 0
    {
      if matrices[j].Rows() != n || matrices[j].Cols() != m {
        return InvalidStructure;
      }
      if matrices[j].Rows() == 0 || matrices[j].Cols() == 0 {
        return InvalidStructure;
      }
    }
    if f.t != |matrices| {
      return PolyArity;
    }
    r := Composed(Ccs(matrices, f, n, m));
  }

  /** What the composition of two structures is. */
  ghost predicate IsDirectSum(s: Ccs, a: Ccs, b: Ccs, beta: Fq)
    requires a.Valid() && b.Valid()
  {
    s.Valid() && s.n == a.n + b.n && s.m == a.m + b.m && AreStacked(s.matrices, a, b) && s.f == Combined(a.f, b.f, beta)
  }

  /** The coefficients times beta. */
  function Scaled(f: SparsePoly, beta: Fq): (g: SparsePoly)
    requires f.Valid()
    ensures g.Valid() && g.t == f.t
  {
    SparsePoly(f.t, seq(|f.terms|, i requires 0 <= i < |f.terms| => Term(Mul(f.terms[i].coeff, beta), f.terms[i].exps)))
  }

  lemma ScaledValue(f: SparsePoly, beta: Fq, x: seq<K>)
    requires f.Valid() && |x| == f.t
    ensures EvalPoly(Scaled(f, beta), x) == KMul(FromBase(beta), EvalPoly(f, x))
  {
    hide KMul, Mul;
    var none := SparsePoly(0, []);
    CombinedValue(none, f, beta, [], x);
    assert [] + x == x;
    assert forall i :: 0 <= i < |f.terms| ==> ZeroExps(0) + f.terms[i].exps == f.terms[i].exps;
    assert Combined(none, f, beta).terms == Scaled(f, beta).terms;
    KAddZero(KMul(FromBase(beta), EvalPoly(f, x)));
  }

  /** Scaling by a nonzero beta keeps the solutions. */
  lemma ScaledSatisfied(b: Ccs, beta: Fq, z: seq<K>)
    requires b.Valid() && beta != 0
    ensures b.(f := Scaled(b.f, beta)).Valid()
    ensures b.(f := Scaled(b.f, beta)).Satisfied(z) <==> b.Satisfied(z)
  {
    hide EvalPoly, KMul, KAdd;
    var s := b.(f := Scaled(b.f, beta));
    if |z| == b.m {
      forall i | 0 <= i < b.n
        ensures s.RowHolds(z, i) <==> b.RowHolds(z, i)
      {
        assert s.Point(z, i) == b.Point(z, i);
        ScaledValue(b.f, beta, b.Point(z, i));
        RowSplits(beta, EvalPoly(b.f, b.Point(z, i)));
        KAddZero(KMul(FromBase(beta), EvalPoly(b.f, b.Point(z, i))));
      }
    }
  }

  /** `direct_sum_mixed`; empty structures leave the other one, scaled if it is the second. */
  method DirectSumMixed(a: Ccs, b: Ccs, beta: Fq) returns (r: SumResult)
    requires a.WellFormed() && b.WellFormed()
    requires (a.Empty() || a.matrices != []) && (b.Empty() || b.matrices != [])
    ensures !a.Empty() && !b.Empty() ==> r.Composed? && IsDirectSum(r.s, a, b, beta)
    ensures a.Empty() && !b.Empty() ==> r == Composed(b.(f := Scaled(b.f, beta)))
    ensures a.Empty() && b.Empty() ==> r.InvalidStructure?
    ensures !a.Empty() && b.Empty() ==> r == Composed(a)
  {
    if a.Empty() {
      r := NewSparse(b.matrices, Scaled(b.f, beta));
      return;
    }
    if b.Empty() {
      return Composed(a);
    }
    hide IsStacked, Combined;
    var matrices := BuildStacked(a, b);
    StackedShapes(matrices, a, b);
    var f := CombineTerms(a.f, b.f, beta);
    r := NewSparse(matrices, f);
  }

  /** `direct_sum`: mixing with 1, but an empty structure leaves the other one as it is. */
  method Sum(a: Ccs, b: Ccs) returns (r: SumResult)
    requires a.WellFormed() && b.WellFormed()
    requires (a.Empty() || a.matrices != []) && (b.Empty() || b.matrices != [])
    ensures r.Composed?
    ensures if a.Empty() then r.s == b else if b.Empty() then r.s == a else IsDirectSum(r.s, a, b, 1)
  {
    if a.Empty() {
      return Composed(b);
    }
    r := DirectSumMixed(a, b, 1);
  }

  lemma StackedShapes(ms: seq<CcsMatrix>, a: Ccs, b: Ccs)
    requires a.Valid() && b.Valid() && AreStacked(ms, a, b)
    ensures forall j :: 0 <= j < |ms| ==> ms[j].Valid() && ms[j].Rows() == a.n + b.n && ms[j].Cols() == a.m + b.m
  {
    forall j | 0 <= j < |ms|
      ensures ms[j].Valid() && ms[j].Rows() == a.n + b.n && ms[j].Cols() == a.m + b.m
    {
      if j < |a.matrices| {
        assert IsStacked(ms[j], a.matrices[j], 0, 0, a.n + b.n, a.m + b.m);
      } else {
        var k := j - |a.matrices|;
        assert IsStacked(ms[|a.matrices| + k], b.matrices[k], a.n, a.m, a.n + b.n, a.m + b.m);
      }
    }
  }

  /** A stacked matrix applied to z1 || z2. */
  lemma {:induction false} StackedRowDot(mat: CcsMatrix, src: CcsMatrix, dr: nat, dc: nat, n: nat, m: nat, z: seq<K>,
                                         zs: seq<K>, r: nat, k: nat)
    requires src.Valid() && IsStacked(mat, src, dr, dc, n, m) && |zs| == src.Cols() && k <= |z| == m
    requires dc + |zs| <= m && forall c :: 0 <= c < |zs| ==> z[dc + c] == zs[c]
    ensures MatRowDot(mat, z, r, k)
         == if r < dr then KZero
            else MatRowDot(src, zs, r - dr, if k < dc then 0 else if k < dc + |zs| then k - dc else |zs|)
  {
    hide KMul, KAdd, CcsMatrix.At;
    if k != 0 {
      StackedRowDot(mat, src, dr, dc, n, m, z, zs, r, k - 1);
      assert mat.At(r, k - 1) == Embedded(src, dr, dc, r, k - 1);
      FromBaseAdd(0, 0, z[k - 1]);
      KAddZero(KZero);
      if r >= dr && k - 1 >= dc + |zs| {
        OutsideIsZero(src, r - dr, k - 1 - dc);
        KAddZero(MatRowDot(src, zs, r - dr, |zs|));
      }
    }
  }

  lemma OutsideIsZero(src: CcsMatrix, r: nat, c: nat)
    requires src.Valid() && (r >= src.Rows() || c >= src.Cols())
    ensures src.At(r, c) == 0
  {}

  lemma {:induction false} RowsOutside(src: CcsMatrix, z: seq<K>, r: nat, k: nat)
    requires src.Valid() && r >= src.Rows() && k <= |z|
    ensures MatRowDot(src, z, r, k) == KZero
  {
    hide KMul, KAdd, CcsMatrix.At;
    if k != 0 {
      RowsOutside(src, z, r, k - 1);
      OutsideIsZero(src, r, k - 1);
      FromBaseAdd(0, 0, z[k - 1]);
      KAddZero(KZero);
    }
  }

  function ZeroPoint(t: nat): (p: seq<K>)
    ensures |p| == t
  {
    seq(t, i => KZero)
  }

  /** On the rows of one block the variables of the other block are all zero. */
  lemma SumPoint(s: Ccs, a: Ccs, b: Ccs, beta: Fq, z1: seq<K>, z2: seq<K>, i: nat)
    requires a.Valid() && b.Valid() && IsDirectSum(s, a, b, beta) && |z1| == a.m && |z2| == b.m && i < s.n
    ensures s.Point(z1 + z2, i)
         == if i < a.n then a.Point(z1, i) + ZeroPoint(|b.matrices|)
            else ZeroPoint(|a.matrices|) + b.Point(z2, i - a.n)
  {
    hide MatRowDot, IsDirectSum;
    DirectSumShape(s, a, b, beta);
    forall j | 0 <= j < |s.matrices|
      ensures MatRowDot(s.matrices[j], z1 + z2, i, s.m) == SumPointAt(a, b, z1, z2, i, j)
    {
      SumPointEntry(s, a, b, beta, z1, z2, i, j);
    }
  }

  lemma DirectSumShape(s: Ccs, a: Ccs, b: Ccs, beta: Fq)
    requires a.Valid() && b.Valid() && IsDirectSum(s, a, b, beta)
    ensures s.Valid() && s.n == a.n + b.n && s.m == a.m + b.m && |s.matrices| == |a.matrices| + |b.matrices|
  {}

  function SumPointAt(a: Ccs, b: Ccs, z1: seq<K>, z2: seq<K>, i: nat, j: nat): K
    requires a.Valid() && b.Valid() && |z1| == a.m && |z2| == b.m && j < |a.matrices| + |b.matrices|
  {
    if j < |a.matrices| then if i < a.n then MatRowDot(a.matrices[j], z1, i, a.m) else KZero
    else if i < a.n then KZero
    else MatRowDot(b.matrices[j - |a.matrices|], z2, i - a.n, b.m)
  }

  lemma SumPointEntry(s: Ccs, a: Ccs, b: Ccs, beta: Fq, z1: seq<K>, z2: seq<K>, i: nat, j: nat)
    requires a.Valid() && b.Valid() && IsDirectSum(s, a, b, beta) && |z1| == a.m && |z2| == b.m && i < s.n
    requires j < |s.matrices|
    ensures |s.matrices| == |a.matrices| + |b.matrices|
    ensures MatRowDot(s.matrices[j], z1 + z2, i, s.m) == SumPointAt(a, b, z1, z2, i, j)
  {
    hide MatRowDot, IsStacked, Combined;
    var z := z1 + z2;
    if j < |a.matrices| {
      StackedRowDot(s.matrices[j], a.matrices[j], 0, 0, s.n, s.m, z, z1, i, s.m);
      if i >= a.n {
        RowsOutside(a.matrices[j], z1, i, a.m);
      }
    } else {
      var k := j - |a.matrices|;
      assert IsStacked(s.matrices[|a.matrices| + k], b.matrices[k], a.n, a.m, a.n + b.n, a.m + b.m);
      StackedRowDot(s.matrices[j], b.matrices[k], a.n, a.m, s.n, s.m, z, z2, i, s.m);
    }
  }

  /** Row by row: the value of the composed polynomial. */
  lemma SumRow(s: Ccs, a: Ccs, b: Ccs, beta: Fq, z1: seq<K>, z2: seq<K>, i: nat)
    requires a.Valid() && b.Valid() && IsDirectSum(s, a, b, beta) && |z1| == a.m && |z2| == b.m && i < s.n
    ensures EvalPoly(s.f, s.Point(z1 + z2, i))
         == if i < a.n then KAdd(EvalPoly(a.f, a.Point(z1, i)), KMul(FromBase(beta), EvalPoly(b.f, ZeroPoint(b.f.t))))
            else KAdd(EvalPoly(a.f, ZeroPoint(a.f.t)), KMul(FromBase(beta), EvalPoly(b.f, b.Point(z2, i - a.n))))
  {
    hide EvalPoly, KMul, KAdd, AreStacked, Combined;
    SumPoint(s, a, b, beta, z1, z2, i);
    if i < a.n {
      CombinedValue(a.f, b.f, beta, a.Point(z1, i), ZeroPoint(b.f.t));
    } else {
      CombinedValue(a.f, b.f, beta, ZeroPoint(a.f.t), b.Point(z2, i - a.n));
    }
  }

  /** The constant term. */
  function Constant(s: Ccs): K
    requires s.Valid()
  {
    EvalPoly(s.f, ZeroPoint(s.f.t))
  }

  ghost predicate NoConstantTerm(s: Ccs)
    requires s.Valid()
  {
    Constant(s) == KZero
  }

  /** z1 || z2 satisfies the composition if and only if z1 and z2 satisfy their own systems. */
  lemma DirectSumSatisfied(s: Ccs, a: Ccs, b: Ccs, beta: Fq, z1: seq<K>, z2: seq<K>)
    requires a.Valid() && b.Valid() && IsDirectSum(s, a, b, beta) && beta != 0
    requires |z1| == a.m && |z2| == b.m && NoConstantTerm(a) && NoConstantTerm(b)
    ensures s.Satisfied(z1 + z2) <==> a.Satisfied(z1) && b.Satisfied(z2)
  {
    hide EvalPoly, KMul, KAdd, AreStacked, Combined;
    forall i | 0 <= i < s.n
      ensures s.RowHolds(z1 + z2, i) <==> if i < a.n then a.RowHolds(z1, i) else b.RowHolds(z2, i - a.n)
    {
      SumRow(s, a, b, beta, z1, z2, i);
      RowSplits(beta, if i < a.n then EvalPoly(a.f, a.Point(z1, i)) else EvalPoly(b.f, b.Point(z2, i - a.n)));
    }
    if s.Satisfied(z1 + z2) {
      forall i | 0 <= i < b.n
        ensures b.RowHolds(z2, i)
      {
        assert s.RowHolds(z1 + z2, a.n + i);
      }
    }
  }

  lemma RowSplits(beta: Fq, v: K)
    requires beta != 0
    ensures KAdd(v, KMul(FromBase(beta), KZero)) == v
    ensures KAdd(KZero, KMul(FromBase(beta), v)) == KZero <==> v == KZero
  {
    hide KMul;
    KMulOne(FromBase(beta));
    KAddZero(v);
    KAddZero(KMul(FromBase(beta), v));
    if v != KZero {
      KProductNonzero(FromBase(beta), v);
    }
  }

  /** The values of all rows that the composition accepts. */
  ghost predicate RowsCancel(a: Ccs, b: Ccs, beta: Fq, z1: seq<K>, z2: seq<K>)
    requires a.Valid() && b.Valid() && |z1| == a.m && |z2| == b.m
  {
    && (forall i :: 0 <= i < a.n ==> EvalPoly(a.f, a.Point(z1, i)) == KNeg(KMul(FromBase(beta), Constant(b))))
    && (forall i :: 0 <= i < b.n ==> KMul(FromBase(beta), EvalPoly(b.f, b.Point(z2, i))) == KNeg(Constant(a)))
  }

  lemma NegatesToZero(x: K, y: K)
    ensures KAdd(x, y) == KZero <==> x == KNeg(y)
    ensures KAdd(x, y) == KZero <==> y == KNeg(x)
  {}

  /** The exact meaning of the composition, constant terms or not. */
  lemma CompositionExactly(a: Ccs, b: Ccs, s: Ccs, beta: Fq, z1: seq<K>, z2: seq<K>)
    requires a.Valid() && b.Valid() && IsDirectSum(s, a, b, beta) && |z1| == a.m && |z2| == b.m
    ensures s.Satisfied(z1 + z2) <==> RowsCancel(a, b, beta, z1, z2)
  {
    hide EvalPoly, KMul, KAdd, KNeg, AreStacked, Combined;
    forall i | 0 <= i < s.n
      ensures s.RowHolds(z1 + z2, i) <==>
        if i < a.n then EvalPoly(a.f, a.Point(z1, i)) == KNeg(KMul(FromBase(beta), Constant(b)))
        else KMul(FromBase(beta), EvalPoly(b.f, b.Point(z2, i - a.n))) == KNeg(Constant(a))
    {
      SumRow(s, a, b, beta, z1, z2, i);
      if i < a.n {
        NegatesToZero(EvalPoly(a.f, a.Point(z1, i)), KMul(FromBase(beta), Constant(b)));
      } else {
        NegatesToZero(Constant(a), KMul(FromBase(beta), EvalPoly(b.f, b.Point(z2, i - a.n))));
      }
    }
    if s.Satisfied(z1 + z2) {
      forall i | 0 <= i < b.n
        ensures KMul(FromBase(beta), EvalPoly(b.f, b.Point(z2, i))) == KNeg(Constant(a))
      {
        assert s.RowHolds(z1 + z2, a.n + i);
      }
    }
  }

  lemma ConstantZero(beta: Fq, v: K)
    requires beta != 0
    ensures KNeg(KMul(FromBase(beta), v)) == KZero <==> v == KZero
    ensures KMul(FromBase(beta), KZero) == KZero && KNeg(KZero) == KZero
    ensures KNeg(v) == KZero <==> v == KZero
  {
    hide KMul;
    RowSplits(beta, v);
    KMulOne(FromBase(beta));
    KAddZero(KMul(FromBase(beta), v));
  }

  /** On satisfied pairs the composition holds exactly when neither polynomial has a constant term. */
  lemma ConstantTermBreaksSum(a: Ccs, b: Ccs, s: Ccs, beta: Fq, z1: seq<K>, z2: seq<K>)
    requires a.Valid() && b.Valid() && IsDirectSum(s, a, b, beta) && beta != 0
    requires a.Satisfied(z1) && b.Satisfied(z2)
    ensures s.Satisfied(z1 + z2) <==> NoConstantTerm(a) && NoConstantTerm(b)
  {
    hide EvalPoly, KMul, KAdd, KNeg, IsDirectSum;
    CompositionExactly(a, b, s, beta, z1, z2);
    ConstantZero(beta, Constant(a));
    ConstantZero(beta, Constant(b));
    assert a.RowHolds(z1, 0) && b.RowHolds(z2, 0);
    assert EvalPoly(a.f, a.Point(z1, 0)) == KZero && EvalPoly(b.f, b.Point(z2, 0)) == KZero;
    if NoConstantTerm(a) && NoConstantTerm(b) {
      RowsVanish(a, z1);
      RowsVanish(b, z2);
    }
  }

  lemma RowsVanish(s: Ccs, z: seq<K>)
    requires s.Valid() && s.Satisfied(z)
    ensures forall i :: 0 <= i < s.n ==> EvalPoly(s.f, s.Point(z, i)) == KZero
  {
    forall i | 0 <= i < s.n
      ensures EvalPoly(s.f, s.Point(z, i)) == KZero
    {
      assert s.RowHolds(z, i);
    }
  }

  /** Pairs the composition accepts wrongly: the rows cancel the constant terms, and there is one. */
  lemma WronglyAccepted(a: Ccs, b: Ccs, s: Ccs, beta: Fq, z1: seq<K>, z2: seq<K>)
    requires a.Valid() && b.Valid() && IsDirectSum(s, a, b, beta) && beta != 0 && |z1| == a.m && |z2| == b.m
    ensures s.Satisfied(z1 + z2) && !(a.Satisfied(z1) && b.Satisfied(z2))
       <==> RowsCancel(a, b, beta, z1, z2) && !(NoConstantTerm(a) && NoConstantTerm(b))
  {
    hide EvalPoly, IsDirectSum, NoConstantTerm, RowsCancel;
    CompositionExactly(a, b, s, beta, z1, z2);
    if NoConstantTerm(a) && NoConstantTerm(b) {
      DirectSumSatisfied(s, a, b, beta, z1, z2);
    } else if a.Satisfied(z1) && b.Satisfied(z2) {
      ConstantTermBreaksSum(a, b, s, beta, z1, z2);
    }
  }

  /** One variable, one row: x + c == 0. */
  function Shifted(c: Fq): Ccs { Ccs([Identity(1)], SparsePoly(1, [Term(1, [1]), Term(c, [0])]), 1, 1) }

  lemma ShiftedHolds(c: Fq, x: K)
    ensures Shifted(c).Valid() && (Shifted(c).Satisfied([x]) <==> KAdd(x, FromBase(c)) == KZero)
  {
    var s := Shifted(c);
    assert s.Point([x], 0) == [x] by { IdentityRowDot(Identity(1), [x], 0, 1); }
    ShiftedValue(c, x);
    assert s.Satisfied([x]) <==> s.RowHolds([x], 0);
  }

  lemma ShiftedValue(c: Fq, x: K)
    ensures EvalPoly(Shifted(c).f, [x]) == KAdd(x, FromBase(c))
  {
    hide KMul;
    var f := Shifted(c).f;
    KMulOne(x);
    KMulOne(FromBase(c));
    assert KPow(x, 1) == KMul(KPow(x, 0), x) == x;
    assert TermAt(f.terms[0], [x], 1) == KMul(FromBase(1), x) == x;
    assert TermAt(f.terms[1], [x], 1) == KMul(FromBase(c), KOne) == FromBase(c);
    assert PolyAt(f.terms, [x], 1) == KAdd(KZero, x) == x;
  }

  /**
   Constant terms in both directions: x == -1 and x == 0 satisfy their systems but not the sum, and
   x == -1 in both satisfies the sum though it is no solution of x == 0.
   */
  method ConstantTermExamples() returns (refused: CcsError, accepted: CcsError)
    ensures refused.RowFail? && Shifted(1).Satisfied([K(Neg(1), 0)]) && Shifted(0).Satisfied([KZero])
    ensures accepted.NoError? && !Shifted(0).Satisfied([K(Neg(1), 0)])
  {
    var minusOne := K(Neg(1), 0);
    ShiftedHolds(1, minusOne);
    ShiftedHolds(0, minusOne);
    ShiftedHolds(0, KZero);
    ShiftedValue(0, minusOne);
    ShiftedValue(1, minusOne);
    ShiftedValue(1, KZero);
    ShiftedValue(0, KZero);
    assert ZeroPoint(1) == [KZero];
    var a, b := Shifted(1), Shifted(0);
    var r := Sum(a, b);
    hide IsDirectSum;
    ConstantTermBreaksSum(a, b, r.s, 1, [minusOne], [KZero]);
    refused := CheckRowwiseZero(r.s, [minusOne], [KZero]);
    r := Sum(b, a);
    IdentityRowDot(Identity(1), [minusOne], 0, 1);
    assert b.Point([minusOne], 0) == [minusOne] && a.Point([minusOne], 0) == [minusOne];
    KMulOne(KOne);
    KMulOne(KZero);
    assert RowsCancel(b, a, 1, [minusOne], [minusOne]);
    CompositionExactly(b, a, r.s, 1, [minusOne], [minusOne]);
    accepted := CheckRowwiseZero(r.s, [minusOne], [minusOne]);
  }

  /** Checking the composition on z1 || z2 is checking both systems. */
  method CheckComposition(a: Ccs, b: Ccs, beta: Fq, z1: seq<K>, z2: seq<K>) returns (ok: bool)
    requires a.Valid() && b.Valid() && beta != 0 && |z1| == a.m && |z2| == b.m
    requires NoConstantTerm(a) && NoConstantTerm(b)
    ensures ok <==> a.Satisfied(z1) && b.Satisfied(z2)
  {
    hide NoConstantTerm, AreStacked, Combined;
    var r := DirectSumMixed(a, b, beta);
    DirectSumSatisfied(r.s, a, b, beta, z1, z2);
    var e := CheckRowwiseZero(r.s, z1, z2);
    ok := e.NoError?;
  }
}
