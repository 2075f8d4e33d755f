/** Cached evaluators of the multilinear extension of M z, scalar and ring-valued. */
module Evaluators {
  import opened Field
  import opened Ring
  import opened Rotations
  import opened Multiply
  import opened ExtField
  import opened KPolynomials
  import opened Csc
  import opened Transform
  import opened SuperNeo

  // ----- the row cache -----

  datatype MatrixCache = MatrixCache(rows: nat, cols: nat, rowBlocks: seq<seq<RowBlock>>)

  ghost predicate RowCached(list: seq<RowBlock>, mat: CcsMatrix, r: nat)
    requires mat.Valid()
  {
    Represents(list, RowBlocks(mat, r), BlockCount(mat.Cols()))
  }

  ghost predicate CacheOk(cache: MatrixCache, mat: CcsMatrix)
    requires mat.Valid()
  {
    && cache.rows == mat.Rows() == |cache.rowBlocks| && cache.cols == BlockCount(mat.Cols()) * D
    && forall r :: 0 <= r < cache.rows ==> RowCached(cache.rowBlocks[r], mat, r)
  }

  lemma RowBlockAt(mat: CcsMatrix, r: nat, b: nat, i: nat)
    requires mat.Valid() && b < BlockCount(mat.Cols()) && i < D
    ensures RowBlocks(mat, r)[b][i] == mat.At(r, b * D + i)
  {
    hide CcsMatrix.At;
    ChunkFits(BlockCount(mat.Cols()), b);
  }

  /** The identity branch: one basis block per row. */
  method IdentityCache(n: nat) returns (cache: MatrixCache)
    ensures CacheOk(cache, Identity(n))
  {
    var basis: seq<Rq> := [];
    for local := 0 to D
      invariant |basis| == local && forall k :: 0 <= k < local ==> basis[k] == Bar(Mono(k))
    {
      var bar := SuperneoBarBlock(Mono(local));
      basis := basis + [bar];
    }
    var rows: seq<seq<RowBlock>> := [];
    hide RowCached, Bar;
    for row := 0 to n
      invariant |rows| == row && forall r :: 0 <= r < row ==> RowCached(rows[r], Identity(n), r)
    {
      var entry := IdentityEntry(basis, n, row);
      rows := rows + [entry];
    }
    cache := MatrixCache(n, BlockCount(n) * D, rows);
  }

  method IdentityEntry(basis: seq<Rq>, n: nat, row: nat) returns (list: seq<RowBlock>)
    requires row < n && |basis| == D && forall k :: 0 <= k < D ==> basis[k] == Bar(Mono(k))
    ensures RowCached(list, Identity(n), row)
  {
    hide RowCached, Bar, Mono;
    var blk, local := row / D, row % D;
    list := [RowBlock(blk, basis[local], Mono(local))];
    IdentityRow(n, row, list);
  }

  lemma IdentityRow(n: nat, row: nat, list: seq<RowBlock>)
    requires row < n && list == [RowBlock(row / D, Bar(Mono(row % D)), Mono(row % D))]
    ensures RowCached(list, Identity(n), row)
  {
    hide Bar;
    var a := RowBlocks(Identity(n), row);
    assert row / D < BlockCount(n);
    forall b | 0 <= b < BlockCount(n)
      ensures a[b] == if b == row / D then Mono(row % D) else Zero
    {
      forall i | 0 <= i < D
        ensures a[b][i] == if b == row / D && i == row % D then 1 else 0
      {
        RowBlockAt(Identity(n), row, b, i);
      }
    }
    assert Listed(list, row / D) by { assert list[0].blk == row / D; }
  }

  /** The entry at (r, col) once the entries before index k of column c are read. */
  function PartialAt(m: CscMat, r: nat, col: nat, c: nat, k: nat): Fq
    requires m.Valid() && c <= m.ncols && m.colPtr[c] <= k <= |m.vals|
  {
    if col < c then m.Entry(r, col) else if col == c then m.ColumnAt(r, m.colPtr[c], k) else 0
  }

  function BlockPartial(m: CscMat, r: nat, b: nat, c: nat, k: nat): (x: Rq)
    requires m.Valid() && c <= m.ncols && m.colPtr[c] <= k <= |m.vals|
    ensures forall l :: 0 <= l < D ==> x[l] == PartialAt(m, r, b * D + l, c, k)
  {
    seq(D, l requires 0 <= l < D => PartialIn(m, r, b, l, c, k))
  }

  function PartialIn(m: CscMat, r: nat, b: nat, l: nat, c: nat, k: nat): Fq
    requires m.Valid() && c <= m.ncols && m.colPtr[c] <= k <= |m.vals|
  {
    PartialAt(m, r, b * D + l, c, k)
  }

  /** Row list under construction: the blocks read so far, transforms still missing. */
  ghost predicate RowPartial(list: seq<RowBlock>, m: CscMat, r: nat, c: nat, k: nat)
    requires m.Valid() && c <= m.ncols && m.colPtr[c] <= k <= |m.vals|
  {
    && (forall i :: 0 <= i < |list| ==> list[i].blk < BlockCount(m.ncols) && list[i].blk <= c / D)
    && (forall i, j :: 0 <= i < j < |list| ==> list[i].blk < list[j].blk)
    && (forall i :: 0 <= i < |list| ==> list[i].orig == BlockPartial(m, r, list[i].blk, c, k))
    && (forall b: nat :: !Listed(list, b) ==> BlockPartial(m, r, b, c, k) == Zero)
  }

  lemma OtherRowUnchanged(list: seq<RowBlock>, m: CscMat, r: nat, c: nat, k: nat)
    requires m.Valid() && c < m.ncols && m.colPtr[c] <= k < |m.vals|
    requires RowPartial(list, m, r, c, k)
    requires m.rowIdx[k] != r || m.vals[k] == 0
    ensures RowPartial(list, m, r, c, k + 1)
  {
    forall b: nat
      ensures BlockPartial(m, r, b, c, k + 1) == BlockPartial(m, r, b, c, k)
    {}
    hide BlockPartial;
  }

  lemma NextColumn(list: seq<RowBlock>, m: CscMat, r: nat, c: nat)
    requires m.Valid() && c < m.ncols && m.colPtr[c] <= m.colPtr[c + 1] <= |m.vals|
    requires RowPartial(list, m, r, c, m.colPtr[c + 1])
    ensures RowPartial(list, m, r, c + 1, m.colPtr[c + 1])
  {
    var d, k := c + 1, m.colPtr[c + 1];
    forall b: nat
      ensures BlockPartial(m, r, b, d, k) == BlockPartial(m, r, b, c, k)
    {}
    hide BlockPartial;
  }

  /** One nonzero entry joins the last block of its row or opens a new one. */
  method AddEntry(list: seq<RowBlock>, m: CscMat, c: nat, k: nat) returns (out: seq<RowBlock>)
    requires m.Valid() && c < m.ncols && m.colPtr[c] <= k < m.colPtr[c + 1] <= |m.vals|
    requires RowPartial(list, m, m.rowIdx[k], c, k)
    ensures RowPartial(out, m, m.rowIdx[k], c, k + 1)
  {
    hide RowPartial;
    var blk, local, v := c / D, c % D, m.vals[k];
    var n := |list|;
    if n > 0 && list[n - 1].blk == blk {
      var last := list[n - 1];
      out := list[n - 1 := last.(orig := last.orig[local := Add(last.orig[local], v)])];
      EntryJoins(list, out, m, c, k);
    } else {
      out := list + [RowBlock(blk, Zero, Zero[local := v])];
      EntryOpens(list, out, m, c, k);
    }
  }

  /** What one entry changes in the blocks of its row. */
  lemma BlockStep(m: CscMat, b: nat, c: nat, k: nat)
    requires m.Valid() && c < m.ncols && m.colPtr[c] <= k < |m.vals|
    ensures var x := BlockPartial(m, m.rowIdx[k], b, c, k);
            BlockPartial(m, m.rowIdx[k], b, c, k + 1)
            == if b == c / D then x[c % D := Add(x[c % D], m.vals[k])] else x
  {
    var r := m.rowIdx[k];
    var x, y := BlockPartial(m, r, b, c, k), BlockPartial(m, r, b, c, k + 1);
    forall l | 0 <= l < D
      ensures y[l] == if b == c / D && l == c % D then Add(x[l], m.vals[k]) else x[l]
    {
      BlockIndex(c, b, l);
    }
  }

  lemma BlockIndex(c: nat, b: nat, l: nat)
    requires l < D
    ensures b * D + l == c <==> b == c / D && l == c % D
  {}

  lemma EntryJoins(list: seq<RowBlock>, out: seq<RowBlock>, m: CscMat, c: nat, k: nat)
    requires m.Valid() && c < m.ncols && m.colPtr[c] <= k < |m.vals| && list != []
    requires RowPartial(list, m, m.rowIdx[k], c, k) && list[|list| - 1].blk == c / D
    requires var last := list[|list| - 1];
             out == list[|list| - 1 := last.(orig := last.orig[c % D := Add(last.orig[c % D], m.vals[k])])]
    ensures RowPartial(out, m, m.rowIdx[k], c, k + 1)
  {
    hide BlockPartial;
    var n, r := |list| - 1, m.rowIdx[k];
    forall i | 0 <= i < |out|
      ensures out[i].orig == BlockPartial(m, r, out[i].blk, c, k + 1)
    {
      BlockStep(m, out[i].blk, c, k);
    }
    forall b: nat | !Listed(out, b)
      ensures BlockPartial(m, r, b, c, k + 1) == Zero
    {
      BlockStep(m, b, c, k);
      assert out[n].blk == c / D;
      SameListed(list, out, b);
    }
  }

  lemma ListedAppend(list: seq<RowBlock>, x: RowBlock, b: nat)
    ensures Listed(list + [x], b) <==> Listed(list, b) || x.blk == b
  {
    if Listed(list, b) {
      var i :| 0 <= i < |list| && list[i].blk == b;
      assert (list + [x])[i].blk == b;
    }
    assert (list + [x])[|list|] == x;
  }

  lemma SameListed(list: seq<RowBlock>, out: seq<RowBlock>, b: nat)
    requires |list| == |out| && forall i :: 0 <= i < |list| ==> list[i].blk == out[i].blk
    ensures Listed(list, b) <==> Listed(out, b)
  {}

  lemma EntryOpens(list: seq<RowBlock>, out: seq<RowBlock>, m: CscMat, c: nat, k: nat)
    requires m.Valid() && c < m.ncols && m.colPtr[c] <= k < |m.vals|
    requires RowPartial(list, m, m.rowIdx[k], c, k) && (list != [] ==> list[|list| - 1].blk != c / D)
    requires out == list + [RowBlock(c / D, Zero, Zero[c % D := m.vals[k]])]
    ensures RowPartial(out, m, m.rowIdx[k], c, k + 1)
  {
    hide BlockPartial;
    var n, r := |list|, m.rowIdx[k];
    assert !Listed(list, c / D);
    assert c / D < BlockCount(m.ncols);
    forall i | 0 <= i < |out|
      ensures out[i].orig == BlockPartial(m, r, out[i].blk, c, k + 1)
    {
      BlockStep(m, out[i].blk, c, k);
    }
    forall b: nat | !Listed(out, b)
      ensures BlockPartial(m, r, b, c, k + 1) == Zero
    {
      BlockStep(m, b, c, k);
      ListedAppend(list, out[n], b);
    }
  }

  /** The transforms of a finished row, without the blocks that vanish. */
  method FinishRow(list: seq<RowBlock>, m: CscMat, r: nat) returns (out: seq<RowBlock>)
    requires m.Valid() && RowsAscend(m) && r < m.nrows && RowPartial(list, m, r, m.ncols, m.colPtr[m.ncols])
    ensures RowCached(out, Sparse(m), r)
  {
    hide Bar;
    ghost var a := RowBlocks(Sparse(m), r);
    out := [];
    FinishedRow(list, m, r);
    hide RowPartial;
    for i := 0 to |list|
      invariant forall k :: 0 <= k < |out| ==> Kept(out[k], list, i, a)
      invariant forall j, k :: 0 <= j < k < |out| ==> out[j].blk < out[k].blk
      invariant forall k :: 0 <= k < i ==> Listed(out, list[k].blk) || a[list[k].blk] == Zero
    {
      var bar := SuperneoBarBlock(list[i].orig);
      BarZero(list[i].orig);
      ghost var before := out;
      if bar != Zero {
        out := out + [RowBlock(list[i].blk, bar, list[i].orig)];
        assert out[|before|].blk == list[i].blk;
      }
      forall k | 0 <= k < i + 1
        ensures Listed(out, list[k].blk) || a[list[k].blk] == Zero
      {
        if k < i && Listed(before, list[k].blk) {
          var j :| 0 <= j < |before| && before[j].blk == list[k].blk;
          assert out[j].blk == list[k].blk;
        }
      }
    }
    forall b | 0 <= b < |a| && !Listed(out, b)
      ensures a[b] == Zero
    {
      if Listed(list, b) {
        var k :| 0 <= k < |list| && list[k].blk == b;
      }
    }
  }

  ghost predicate Kept(rb: RowBlock, list: seq<RowBlock>, i: nat, a: seq<Rq>)
    requires i <= |list|
  {
    && rb.blk < |a| && rb.orig == a[rb.blk] && rb.bar == Bar(rb.orig)
    && (i < |list| ==> rb.blk < list[i].blk)
  }

  lemma FinishedRow(list: seq<RowBlock>, m: CscMat, r: nat)
    requires m.Valid() && RowsAscend(m) && r < m.nrows && RowPartial(list, m, r, m.ncols, m.colPtr[m.ncols])
    ensures var a := RowBlocks(Sparse(m), r);
            && (forall i :: 0 <= i < |list| ==> list[i].blk < |a| && list[i].orig == a[list[i].blk])
            && (forall i, j :: 0 <= i < j < |list| ==> list[i].blk < list[j].blk)
            && (forall b :: 0 <= b < |a| && !Listed(list, b) ==> a[b] == Zero)
  {
    var mat := Sparse(m);
    var a := RowBlocks(mat, r);
    forall b | 0 <= b < |a|
      ensures a[b] == BlockPartial(m, r, b, m.ncols, m.colPtr[m.ncols])
    {
      forall l | 0 <= l < D
        ensures a[b][l] == PartialAt(m, r, b * D + l, m.ncols, m.colPtr[m.ncols])
      {
        RowBlockAt(mat, r, b, l);
      }
    }
    hide BlockPartial, RowBlocks;
  }

  /** The first pass of the CSC branch. */
  method CollectRows(m: CscMat) returns (rows: seq<seq<RowBlock>>)
    requires m.Valid()
    ensures |rows| == m.nrows
    ensures forall r :: 0 <= r < m.nrows ==> RowPartial(rows[r], m, r, m.ncols, m.colPtr[m.ncols])
  {
    rows := seq(m.nrows, r => []);
    EmptyRows(m);
    hide RowPartial;
    for c := 0 to m.ncols
      invariant |rows| == m.nrows
      invariant forall r :: 0 <= r < m.nrows ==> RowPartial(rows[r], m, r, c, m.colPtr[c])
    {
      assert m.colPtr[c] <= m.colPtr[c + 1] <= m.colPtr[m.ncols];
      for k := m.colPtr[c] to m.colPtr[c + 1]
        invariant |rows| == m.nrows
        invariant forall r :: 0 <= r < m.nrows ==> RowPartial(rows[r], m, r, c, k)
      {
        var row := m.rowIdx[k];
        forall r | 0 <= r < m.nrows && (r != row || m.vals[k] == 0)
          ensures RowPartial(rows[r], m, r, c, k + 1)
        {
          OtherRowUnchanged(rows[r], m, r, c, k);
        }
        if m.vals[k] == 0 {
          continue;
        }
        var entry := AddEntry(rows[row], m, c, k);
        rows := rows[row := entry];
      }
      forall r | 0 <= r < m.nrows
        ensures RowPartial(rows[r], m, r, c + 1, m.colPtr[c + 1])
      {
        NextColumn(rows[r], m, r, c);
      }
    }
  }

  lemma EmptyRows(m: CscMat)
    requires m.Valid()
    ensures forall r :: 0 <= r < m.nrows ==> RowPartial([], m, r, 0, m.colPtr[0])
  {}

  /** `build_matrix_cache`. */
  method BuildMatrixCache(mat: CcsMatrix) returns (cache: MatrixCache)
    requires mat.Valid()
    ensures CacheOk(cache, mat)
  {
    if mat.Identity? {
      cache := IdentityCache(mat.n);
      return;
    }
    var m := mat.csc;
    var partial := CollectRows(m);
    var rows: seq<seq<RowBlock>> := [];
    hide RowPartial, RowCached;
    for r := 0 to m.nrows
      invariant |rows| == r && forall k :: 0 <= k < r ==> RowCached(rows[k], mat, k)
    {
      var list := FinishRow(partial[r], m, r);
      rows := rows + [list];
    }
    cache := MatrixCache(m.nrows, BlockCount(m.ncols) * D, rows);
  }

  // ----- the scalar evaluators -----

  /** The reference: the first n rows of M z, weighted. */
  function Mle(mat: CcsMatrix, z: seq<K>, chi: seq<K>, n: nat): K
    requires mat.Valid() && n <= |chi|
  {
    if n == 0 then KZero
    else KAdd(Mle(mat, z, chi, n - 1), KMul(chi[n - 1], MatRowDot(mat, z, n - 1, |z|)))
  }

  function Min(a: nat, b: nat): (m: nat)
    ensures m <= a && m <= b && (m == a || m == b)
  {
    if a < b then a else b
  }

  /** Every row counts with its weight; rows at or beyond the caps count nothing. */
  lemma MleOfAllRows(mat: CcsMatrix, z: seq<K>, chi: seq<K>, nEff: nat, w: seq<K>)
    requires mat.Valid() && |w| == mat.Rows()
    requires forall r :: 0 <= r < |w| ==> w[r] == if r < nEff && r < |chi| then chi[r] else KZero
    ensures Mle(mat, z, chi, Min(Min(mat.Rows(), nEff), |chi|)) == Mle(mat, z, w, mat.Rows())
  {
    var n := Min(Min(mat.Rows(), nEff), |chi|);
    SameWeights(mat, z, chi, w, n);
    NoWeights(mat, z, w, n, |w|);
  }

  lemma {:induction false} SameWeights(mat: CcsMatrix, z: seq<K>, chi: seq<K>, w: seq<K>, n: nat)
    requires mat.Valid() && n <= |chi| && n <= |w| && forall r :: 0 <= r < n ==> chi[r] == w[r]
    ensures Mle(mat, z, chi, n) == Mle(mat, z, w, n)
  {
    hide KMul, KAdd, MatRowDot;
    if n != 0 {
      SameWeights(mat, z, chi, w, n - 1);
    }
  }

  lemma {:induction false} NoWeights(mat: CcsMatrix, z: seq<K>, w: seq<K>, lo: nat, n: nat)
    requires mat.Valid() && lo <= n <= |w| && forall r :: lo <= r < n ==> w[r] == KZero
    ensures Mle(mat, z, w, n) == Mle(mat, z, w, lo)
  {
    hide KMul, KAdd, MatRowDot;
    if lo < n {
      NoWeights(mat, z, w, lo, n - 1);
      KMulOne(MatRowDot(mat, z, n - 1, |z|));
      KAddZero(Mle(mat, z, w, lo));
    }
  }

  /** Weight one on a single row gives the product of that row. */
  lemma MleOfOneRow(mat: CcsMatrix, z: seq<K>, w: seq<K>, r: nat)
    requires mat.Valid() && r < |w| && forall k :: 0 <= k < |w| ==> w[k] == if k == r then KOne else KZero
    ensures Mle(mat, z, w, |w|) == MatRowDot(mat, z, r, |z|)
  {
    hide KMul, KAdd, MatRowDot;
    NoWeights(mat, z, w, r + 1, |w|);
    NoWeights(mat, z, w, 0, r);
    KMulOne(MatRowDot(mat, z, r, |z|));
    KAddZero(MatRowDot(mat, z, r, |z|));
  }

  /** `eval_mle_direct_matrix`: the product M z first, then the weights. */
  method EvalMleDirect(mat: CcsMatrix, z: seq<K>, chi: seq<K>, nEff: nat) returns (acc: K)
    requires mat.Valid() && |z| == mat.Cols()
    ensures acc == Mle(mat, z, chi, Min(Min(mat.Rows(), nEff), |chi|))
    ensures mat.Rows() <= nEff && mat.Rows() <= |chi| ==> acc == Mle(mat, z, chi, mat.Rows())
  {
    hide KMul, KAdd, MatRowDot;
    var cap := Min(mat.Rows(), nEff);
    var buffer := new K[cap](i => KZero);
    MulInto(mat, z, buffer, cap);
    forall row | 0 <= row < cap
      ensures buffer[row] == MatRowDot(mat, z, row, |z|)
    {
      KAddZero(MatRowDot(mat, z, row, |z|));
    }
    var mz := buffer[..];
    acc := KZero;
    for row := 0 to Min(cap, |chi|)
      invariant acc == Mle(mat, z, chi, row)
    {
      KMulOne(mz[row]);
      KAddZero(acc);
      if chi[row] == KZero {
        continue;
      }
      acc := KAdd(acc, KMul(chi[row], mz[row]));
    }
  }

  /** `eval_mle_superneo_from_original`. */
  method EvalMleFromOriginal(mat: CcsMatrix, z: seq<K>, chi: seq<K>, nEff: nat) returns (acc: K)
    requires mat.Valid() && |z| == mat.Cols()
    ensures acc == Mle(mat, z, chi, Min(Min(mat.Rows(), nEff), |chi|))
    ensures mat.Rows() <= nEff && mat.Rows() <= |chi| ==> acc == Mle(mat, z, chi, mat.Rows())
  {
    hide KMul, KAdd, MatRowDot, RowValue, RowBlocks;
    acc := KZero;
    for row := 0 to Min(Min(mat.Rows(), nEff), |chi|)
      invariant acc == Mle(mat, z, chi, row)
    {
      DirectIsBlocks(mat, z, row);
      KMulOne(MatRowDot(mat, z, row, |z|));
      KAddZero(acc);
      if chi[row] == KZero {
        continue;
      }
      var v := RowDotFromOriginal(mat, row, z);
      acc := KAdd(acc, KMul(chi[row], v));
    }
  }

  /** `eval_mle_with_blocks` on a cache of the matrix. */
  method EvalMleWithBlocks(cache: MatrixCache, ghost mat: CcsMatrix, zb: ZBlocks, ghost z: seq<K>, chi: seq<K>, nEff: nat)
    returns (acc: K)
    requires mat.Valid() && CacheOk(cache, mat) && BlocksOf(zb, z) && BlockCount(|z|) == BlockCount(mat.Cols())
    ensures acc == Mle(mat, z, chi, Min(Min(mat.Rows(), nEff), |chi|))
    ensures mat.Rows() <= nEff && mat.Rows() <= |chi| ==> acc == Mle(mat, z, chi, mat.Rows())
  {
    hide KMul, KAdd, MatRowDot, RowValue, RowBlocks, Represents, BlocksOf;
    acc := KZero;
    for row := 0 to Min(Min(cache.rows, nEff), |chi|)
      invariant acc == Mle(mat, z, chi, row)
    {
      assert RowCached(cache.rowBlocks[row], mat, row);
      DirectIsBlocks(mat, z, row);
      KMulOne(MatRowDot(mat, z, row, |z|));
      KAddZero(acc);
      if chi[row] == KZero {
        continue;
      }
      var v := RowDotWithBlocks(cache.rowBlocks[row], RowBlocks(mat, row), zb, z);
      acc := KAdd(acc, KMul(chi[row], v));
    }
  }

  // ----- the linear form -----

  /** Column c of M^T chi over the first n rows. */
  function DenseAt(mat: CcsMatrix, chi: seq<K>, n: nat, c: nat): K
    requires mat.Valid() && n <= |chi|
  {
    if n == 0 then KZero
    else KAdd(DenseAt(mat, chi, n - 1, c), KMul(chi[n - 1], FromBase(mat.At(n - 1, c))))
  }

  /** The first k products of z with the dense form. */
  function FormDot(mat: CcsMatrix, z: seq<K>, chi: seq<K>, n: nat, k: nat): K
    requires mat.Valid() && n <= |chi| && k <= |z|
  {
    if k == 0 then KZero
    else KAdd(FormDot(mat, z, chi, n, k - 1), KMul(z[k - 1], DenseAt(mat, chi, n, k - 1)))
  }

  /** Adding one row to the form adds its weighted dot product. */
  lemma {:induction false} FormDotRow(mat: CcsMatrix, z: seq<K>, chi: seq<K>, n: nat, k: nat)
    requires mat.Valid() && 0 < n <= |chi| && k <= |z|
    ensures FormDot(mat, z, chi, n, k)
         == KAdd(FormDot(mat, z, chi, n - 1, k), KMul(chi[n - 1], MatRowDot(mat, z, n - 1, k)))
  {
    hide KMul, KAdd, CcsMatrix.At;
    var w := chi[n - 1];
    if k == 0 {
      KMulOne(w);
      KAddZero(KZero);
    } else {
      FormDotRow(mat, z, chi, n, k - 1);
      var x, e := z[k - 1], FromBase(mat.At(n - 1, k - 1));
      KMulAdd(x, DenseAt(mat, chi, n - 1, k - 1), KMul(w, e));
      KMulAssoc(w, e, x);
      KMulComm(KMul(w, e), x);
      KMulAdd(w, MatRowDot(mat, z, n - 1, k - 1), KMul(e, x));
      KAddSwap(FormDot(mat, z, chi, n - 1, k - 1), KMul(w, MatRowDot(mat, z, n - 1, k - 1)),
               KMul(x, DenseAt(mat, chi, n - 1, k - 1)), KMul(w, KMul(e, x)));
    }
  }

  lemma {:induction false} FormDotNoRows(mat: CcsMatrix, z: seq<K>, chi: seq<K>, k: nat)
    requires mat.Valid() && k <= |z|
    ensures FormDot(mat, z, chi, 0, k) == KZero
  {
    hide KMul, KAdd;
    if k != 0 {
      FormDotNoRows(mat, z, chi, k - 1);
      KMulOne(z[k - 1]);
      KAddZero(KZero);
    }
  }

  /** z paired with M^T chi is chi paired with M z. */
  lemma {:induction false} FormIsMle(mat: CcsMatrix, z: seq<K>, chi: seq<K>, n: nat)
    requires mat.Valid() && n <= |chi|
    ensures FormDot(mat, z, chi, n, |z|) == Mle(mat, z, chi, n)
  {
    hide KMul, KAdd, MatRowDot;
    if n == 0 {
      FormDotNoRows(mat, z, chi, |z|);
    } else {
      FormIsMle(mat, z, chi, n - 1);
      FormDotRow(mat, z, chi, n, |z|);
    }
  }

  method AddBlock(dense: seq<K>, base: nat, orig: Rq, w: K) returns (out: seq<K>)
    requires base + D <= |dense|
    ensures |out| == |dense|
    ensures forall c :: 0 <= c < |dense| ==>
      out[c] == if base <= c < base + D then KAdd(dense[c], KMul(w, FromBase(orig[c - base]))) else dense[c]
  {
    hide KMul, KAdd;
    KMulOne(w);
    out := dense;
    for i := 0 to D
      invariant |out| == |dense|
      invariant forall c :: 0 <= c < |dense| ==>
        out[c] == if base <= c < base + i then KAdd(dense[c], KMul(w, FromBase(orig[c - base]))) else dense[c]
    {
      KAddZero(dense[base + i]);
      assert FromBase(0) == KZero;
      if orig[i] != 0 {
        out := out[base + i := KAdd(out[base + i], KMul(w, FromBase(orig[i])))];
      }
    }
  }

  /** One row added to the dense form through its cached blocks. */
  method AddRow(dense: seq<K>, list: seq<RowBlock>, ghost mat: CcsMatrix, ghost r: nat, w: K) returns (out: seq<K>)
    requires mat.Valid() && RowCached(list, mat, r) && |dense| == BlockCount(mat.Cols()) * D
    ensures |out| == |dense|
    ensures forall c :: 0 <= c < |dense| ==> out[c] == KAdd(dense[c], KMul(w, FromBase(mat.At(r, c))))
  {
    hide KMul, KAdd, Bar, CcsMatrix.At;
    out := dense;
    for i := 0 to |list|
      invariant |out| == |dense|
      invariant forall c :: 0 <= c < |dense| && Listed(list[..i], c / D) ==>
        out[c] == KAdd(dense[c], KMul(w, FromBase(mat.At(r, c))))
      invariant forall c :: 0 <= c < |dense| && !Listed(list[..i], c / D) ==> out[c] == dense[c]
    {
      ghost var before := out;
      var rb := list[i];
      ChunkFits(BlockCount(mat.Cols()), rb.blk);
      out := AddBlock(out, rb.blk * D, rb.orig, w);
      forall c | 0 <= c < |dense|
        ensures Listed(list[..i + 1], c / D) <==> Listed(list[..i], c / D) || c / D == rb.blk
        ensures c / D == rb.blk ==> out[c] == KAdd(dense[c], KMul(w, FromBase(mat.At(r, c))))
        ensures c / D != rb.blk ==> out[c] == before[c]
      {
        ListedGrows(list, i, c / D);
        BlockIndex(c, rb.blk, c % D);
        if c / D == rb.blk {
          RowBlockAt(mat, r, rb.blk, c % D);
        }
      }
      hide Represents, RowBlocks;
    }
    assert list[..|list|] == list;
    KMulOne(w);
    forall c | 0 <= c < |dense| && !Listed(list, c / D)
      ensures KAdd(dense[c], KMul(w, FromBase(mat.At(r, c)))) == dense[c]
    {
      RowBlockAt(mat, r, c / D, c % D);
      UnlistedIsZero(list, mat, r, c / D);
      KAddZero(dense[c]);
      assert FromBase(0) == KZero;
    }
  }

  lemma UnlistedIsZero(list: seq<RowBlock>, mat: CcsMatrix, r: nat, b: nat)
    requires mat.Valid() && RowCached(list, mat, r) && b < BlockCount(mat.Cols()) && !Listed(list, b)
    ensures RowBlocks(mat, r)[b] == Zero
  {}

  lemma ListedGrows(list: seq<RowBlock>, i: nat, b: nat)
    requires i < |list|
    ensures Listed(list[..i + 1], b) <==> Listed(list[..i], b) || b == list[i].blk
    ensures (forall j, k :: 0 <= j < k < |list| ==> list[j].blk < list[k].blk) ==> !Listed(list[..i], list[i].blk)
  {
    if Listed(list[..i], b) {
      var j :| 0 <= j < i && list[..i][j].blk == b;
      assert list[..i + 1][j].blk == b;
    }
    assert list[..i + 1][i] == list[i];
  }

  /** `build_linear_form`: the nonzero columns of M^T chi. */
  method BuildLinearForm(cache: MatrixCache, ghost mat: CcsMatrix, chi: seq<K>, nEff: nat) returns (nz: seq<(nat, K)>)
    requires mat.Valid() && CacheOk(cache, mat)
    ensures forall k :: 0 <= k < |nz| ==> nz[k].0 < cache.cols
    ensures forall z: seq<K> :: |z| == cache.cols ==>
      SparseFormDot(nz, z, |nz|) == Mle(mat, z, chi, Min(Min(mat.Rows(), nEff), |chi|))
    ensures mat.Rows() <= nEff && mat.Rows() <= |chi| ==> forall z: seq<K> :: |z| == cache.cols ==>
      SparseFormDot(nz, z, |nz|) == Mle(mat, z, chi, mat.Rows())
  {
    hide KMul, KAdd, RowCached, CcsMatrix.At;
    var cap := Min(Min(cache.rows, nEff), |chi|);
    var dense := KZeros(cache.cols);
    for row := 0 to cap
      invariant |dense| == cache.cols
      invariant forall c :: 0 <= c < cache.cols ==> dense[c] == DenseAt(mat, chi, row, c)
    {
      if chi[row] == KZero {
        forall c | 0 <= c < cache.cols
          ensures DenseAt(mat, chi, row + 1, c) == dense[c]
        {
          KMulOne(FromBase(mat.At(row, c)));
          KAddZero(dense[c]);
        }
        continue;
      }
      dense := AddRow(dense, cache.rowBlocks[row], mat, row, chi[row]);
    }
    nz := FilterNonzero(dense);
    forall z: seq<K> | |z| == cache.cols
      ensures SparseFormDot(nz, z, |nz|) == Mle(mat, z, chi, cap)
    {
      DenseFormIsForm(mat, chi, cap, dense, z, |z|);
      FormIsMle(mat, z, chi, cap);
    }
  }

  /** `eval_vec_k` on the first k listed columns. */
  function SparseFormDot(nz: seq<(nat, K)>, z: seq<K>, k: nat): K
    requires k <= |nz| && forall i :: 0 <= i < |nz| ==> nz[i].0 < |z|
  {
    if k == 0 then KZero else KAdd(SparseFormDot(nz, z, k - 1), KMul(z[nz[k - 1].0], nz[k - 1].1))
  }

  function DenseFormDot(dense: seq<K>, z: seq<K>, k: nat): K
    requires k <= |dense| && k <= |z|
  {
    if k == 0 then KZero else KAdd(DenseFormDot(dense, z, k - 1), KMul(z[k - 1], dense[k - 1]))
  }

  method FilterNonzero(dense: seq<K>) returns (nz: seq<(nat, K)>)
    ensures forall k :: 0 <= k < |nz| ==> nz[k].0 < |dense|
    ensures forall z: seq<K> :: |z| == |dense| ==> SparseFormDot(nz, z, |nz|) == DenseFormDot(dense, z, |z|)
  {
    hide KMul, KAdd;
    nz := [];
    for c := 0 to |dense|
      invariant forall k :: 0 <= k < |nz| ==> nz[k].0 < c
      invariant forall z: seq<K> :: |z| == |dense| ==> SparseFormDot(nz, z, |nz|) == DenseFormDot(dense, z, c)
    {
      ghost var before := nz;
      if dense[c] != KZero {
        nz := nz + [(c, dense[c])];
      }
      forall z: seq<K> | |z| == |dense|
        ensures SparseFormDot(nz, z, |nz|) == DenseFormDot(dense, z, c + 1)
      {
        SparseFormPrefix(before, nz, z, |before|);
        KMulOne(z[c]);
        KAddZero(DenseFormDot(dense, z, c));
      }
    }
  }

  lemma {:induction false} SparseFormPrefix(a: seq<(nat, K)>, b: seq<(nat, K)>, z: seq<K>, k: nat)
    requires k <= |a| <= |b| && b[..|a|] == a
    requires forall i :: 0 <= i < |b| ==> b[i].0 < |z|
    requires forall i :: 0 <= i < |a| ==> a[i].0 < |z|
    ensures SparseFormDot(a, z, k) == SparseFormDot(b, z, k)
  {
    hide KMul, KAdd;
    if k != 0 {
      SparseFormPrefix(a, b, z, k - 1);
      assert a[k - 1] == b[k - 1];
    }
  }

  lemma {:induction false} DenseFormIsForm(mat: CcsMatrix, chi: seq<K>, n: nat, dense: seq<K>, z: seq<K>, k: nat)
    requires mat.Valid() && n <= |chi| && k <= |z| == |dense|
    requires forall c :: 0 <= c < |dense| ==> dense[c] == DenseAt(mat, chi, n, c)
    ensures DenseFormDot(dense, z, k) == FormDot(mat, z, chi, n, k)
  {
    hide KMul, KAdd;
    if k != 0 {
      DenseFormIsForm(mat, chi, n, dense, z, k - 1);
    }
  }

  /** `eval_vec_k`: with the form of a matrix, the multilinear extension of M z. */
  method EvalVecK(nz: seq<(nat, K)>, z: seq<K>) returns (acc: K)
    requires forall i :: 0 <= i < |nz| ==> nz[i].0 < |z|
    ensures acc == SparseFormDot(nz, z, |nz|)
  {
    hide KMul, KAdd;
    acc := KZero;
    for k := 0 to |nz|
      invariant acc == SparseFormDot(nz, z, k)
    {
      acc := KAdd(acc, KMul(z[nz[k].0], nz[k].1));
    }
  }
}
