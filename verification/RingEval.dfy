/** Ring-valued evaluation of M z: row by row, aggregated by blocks, and as a commitment-like map. */
module RingEval {
  import opened Field
  import opened Vectors
  import opened Ring
  import opened Polynomials
  import opened Rotations
  import opened Multiply
  import opened ExtField
  import opened Ajtai
  import opened Csc
  import opened Transform
  import opened SuperNeo
  import opened Evaluators
  import Matrices

  /** D coefficients in K, real and imaginary parts apart. */
  datatype RingK = RingK(re: Rq, im: Rq) {
    function At(i: nat): K
      requires i < D
    {
      K(re[i], im[i])
    }
  }

  const RING_ZERO := RingK(Zero, Zero)

  function RPlus(x: RingK, y: RingK): RingK { RingK(Plus(x.re, y.re), Plus(x.im, y.im)) }

  function RScale(w: K, x: RingK): RingK {
    RingK(seq(D, i requires 0 <= i < D => KMul(w, x.At(i)).re), seq(D, i requires 0 <= i < D => KMul(w, x.At(i)).im))
  }

  lemma RPlusAt(x: RingK, y: RingK, i: nat)
    requires i < D
    ensures RPlus(x, y).At(i) == KAdd(x.At(i), y.At(i))
  {}

  lemma RScaleAt(w: K, x: RingK, i: nat)
    requires i < D
    ensures RScale(w, x).At(i) == KMul(w, x.At(i))
  {}

  /** The ring form of a row of blocks on z. */
  function RowRing(a: seq<Rq>, z: seq<K>): RingK
    requires |a| == BlockCount(|z|)
  {
    RingK(InnerProduct(BarRow(a), BlocksOfPart(z, false), 0, |a|), InnerProduct(BarRow(a), BlocksOfPart(z, true), 0, |a|))
  }

  /** The reference: the weighted ring forms of the first n rows. */
  function RingMle(mat: CcsMatrix, z: seq<K>, chi: seq<K>, n: nat): RingK
    requires mat.Valid() && n <= |chi| && BlockCount(|z|) == BlockCount(mat.Cols())
  {
    if n == 0 then RING_ZERO
    else RPlus(RingMle(mat, z, chi, n - 1), RScale(chi[n - 1], RowRing(RowBlocks(mat, n - 1), z)))
  }

  /** The constant term of the ring form is the scalar evaluation. */
  lemma {:induction false} CtOfRingMle(mat: CcsMatrix, z: seq<K>, chi: seq<K>, n: nat)
    requires mat.Valid() && n <= |chi| && BlockCount(|z|) == BlockCount(mat.Cols())
    ensures RingMle(mat, z, chi, n).At(0) == Mle(mat, z, chi, n)
  {
    hide KMul, KAdd, RowBlocks, MatRowDot, RowRing, RScale, RPlus;
    if n != 0 {
      CtOfRingMle(mat, z, chi, n - 1);
      var a := RowBlocks(mat, n - 1);
      RPlusAt(RingMle(mat, z, chi, n - 1), RScale(chi[n - 1], RowRing(a, z)), 0);
      RScaleAt(chi[n - 1], RowRing(a, z), 0);
      CtOfRowRing(a, z);
      DirectIsBlocks(mat, z, n - 1);
    }
  }

  lemma CtOfRowRing(a: seq<Rq>, z: seq<K>)
    requires |a| == BlockCount(|z|)
    ensures RowRing(a, z).At(0) == RowValue(a, z)
  {
    hide BlockDot, BarRow, BlocksOfPart;
    CtOfRow(a, BlocksOfPart(z, false), |a|);
    CtOfRow(a, BlocksOfPart(z, true), |a|);
  }

  // ----- row by row -----

  /** The products of the listed blocks with z, accumulated coefficient-wise. */
  method ListedRing(list: seq<RowBlock>, ghost a: seq<Rq>, z: seq<Rq>) returns (acc: Rq)
    requires Represents(list, a, |a|) && |a| == |z|
    ensures acc == InnerProduct(BarRow(a), z, 0, |a|)
  {
    hide Bar, Times, Plus, Represents;
    SparseBlocksFit(list, a, |a|);
    acc := Zero;
    for i := 0 to |list|
      invariant acc == SparseRing(list[..i], z)
    {
      assert list[..i + 1][..i] == list[..i];
      var prod := MulRq(list[i].bar, z[list[i].blk]);
      acc := Plus(acc, prod);
    }
    assert list[..|list|] == list;
    SparseRingIsRow(list, a, z, |a|);
  }

  lemma {:induction false} RowOnZeros(a: seq<Rq>, z: seq<Rq>, n: nat)
    requires n <= |a| && n <= |z| && forall b :: 0 <= b < n ==> z[b] == Zero
    ensures InnerProduct(a, z, 0, n) == Zero
  {
    hide Times;
    if n != 0 {
      RowOnZeros(a, z, n - 1);
      TimesOne(a[n - 1]);
      PlusZeros(Zero);
    }
  }

  /** `row_dot_ring_with_blocks`. */
  method RowDotRing(list: seq<RowBlock>, ghost a: seq<Rq>, zb: ZBlocks, ghost z: seq<K>) returns (v: RingK)
    requires Represents(list, a, |a|) && BlocksOf(zb, z) && |a| == BlockCount(|z|)
    ensures v == RowRing(a, z)
  {
    hide Represents, InnerProduct, BlocksOfPart;
    var re := ListedRing(list, a, zb.re);
    if zb.imagAllZero {
      RowOnZeros(BarRow(a), zb.im, |a|);
      return RingK(re, Zero);
    }
    var im := ListedRing(list, a, zb.im);
    v := RingK(re, im);
  }

  lemma RScaleZero(x: RingK, y: RingK)
    ensures RPlus(y, RScale(KZero, x)) == y
  {
    hide KMul;
    var zero := RScale(KZero, x);
    forall i | 0 <= i < D
      ensures zero.re[i] == 0 && zero.im[i] == 0
    {
      KMulOne(x.At(i));
    }
    assert zero.re == Zero && zero.im == Zero;
    PlusZeros(y.re);
    PlusZeros(y.im);
  }

  /** Every row counts with its weight; rows at or beyond the caps count nothing. */
  lemma RingMleOfAllRows(mat: CcsMatrix, z: seq<K>, chi: seq<K>, nEff: nat, w: seq<K>)
    requires mat.Valid() && BlockCount(|z|) == BlockCount(mat.Cols()) && |w| == mat.Rows()
    requires forall r :: 0 <= r < |w| ==> w[r] == if r < nEff && r < |chi| then chi[r] else KZero
    ensures RingMle(mat, z, chi, Min(Min(mat.Rows(), nEff), |chi|)) == RingMle(mat, z, w, mat.Rows())
  {
    hide RingMle;
    var n := Min(Min(mat.Rows(), nEff), |chi|);
    SameRingWeights(mat, z, chi, w, n);
    NoRingWeights(mat, z, w, n, |w|);
  }

  lemma {:induction false} SameRingWeights(mat: CcsMatrix, z: seq<K>, chi: seq<K>, w: seq<K>, n: nat)
    requires mat.Valid() && BlockCount(|z|) == BlockCount(mat.Cols())
    requires n <= |chi| && n <= |w| && forall r :: 0 <= r < n ==> chi[r] == w[r]
    ensures RingMle(mat, z, chi, n) == RingMle(mat, z, w, n)
  {
    hide RPlus, RScale, RowRing;
    if n != 0 {
      SameRingWeights(mat, z, chi, w, n - 1);
    }
  }

  lemma {:induction false} NoRingWeights(mat: CcsMatrix, z: seq<K>, w: seq<K>, lo: nat, n: nat)
    requires mat.Valid() && BlockCount(|z|) == BlockCount(mat.Cols())
    requires lo <= n <= |w| && forall r :: lo <= r < n ==> w[r] == KZero
    ensures RingMle(mat, z, w, n) == RingMle(mat, z, w, lo)
  {
    hide RPlus, RScale, RowRing;
    if lo < n {
      NoRingWeights(mat, z, w, lo, n - 1);
      RScaleZero(RowRing(RowBlocks(mat, n - 1), z), RingMle(mat, z, w, lo));
    }
  }

  /** `eval_mle_ring_with_blocks`: real z take a loop of their own. */
  method EvalMleRing(cache: MatrixCache, ghost mat: CcsMatrix, zb: ZBlocks, ghost z: seq<K>, chi: seq<K>, nEff: nat)
    returns (out: RingK)
    requires mat.Valid() && CacheOk(cache, mat) && BlocksOf(zb, z) && BlockCount(|z|) == BlockCount(mat.Cols())
    ensures out == RingMle(mat, z, chi, Min(Min(mat.Rows(), nEff), |chi|))
    ensures mat.Rows() <= nEff && mat.Rows() <= |chi| ==> out == RingMle(mat, z, chi, mat.Rows())
  {
    hide RPlus, RScale, RowRing, RowBlocks, Represents, BlocksOf, InnerProduct;
    if zb.imagAllZero {
      out := EvalMleRingReal(cache, mat, zb, z, chi, nEff);
      return;
    }
    out := RING_ZERO;
    for row := 0 to Min(Min(cache.rows, nEff), |chi|)
      invariant out == RingMle(mat, z, chi, row)
    {
      assert RowCached(cache.rowBlocks[row], mat, row);
      RScaleZero(RowRing(RowBlocks(mat, row), z), out);
      if chi[row] == KZero {
        continue;
      }
      var v := RowDotRing(cache.rowBlocks[row], RowBlocks(mat, row), zb, z);
      out := RPlus(out, RScale(chi[row], v));
    }
  }

  /** The loop for real z: every product joins the real and the imaginary sum with its part of the weight. */
  method EvalMleRingReal(cache: MatrixCache, ghost mat: CcsMatrix, zb: ZBlocks, ghost z: seq<K>, chi: seq<K>, nEff: nat)
    returns (out: RingK)
    requires mat.Valid() && CacheOk(cache, mat) && BlocksOf(zb, z) && BlockCount(|z|) == BlockCount(mat.Cols())
    requires zb.imagAllZero
    ensures out == RingMle(mat, z, chi, Min(Min(mat.Rows(), nEff), |chi|))
    ensures mat.Rows() <= nEff && mat.Rows() <= |chi| ==> out == RingMle(mat, z, chi, mat.Rows())
  {
    hide RPlus, RScale, RowBlocks, Represents, InnerProduct, BlocksOfPart;
    out := RING_ZERO;
    for row := 0 to Min(Min(cache.rows, nEff), |chi|)
      invariant out == RingMle(mat, z, chi, row)
    {
      assert RowCached(cache.rowBlocks[row], mat, row);
      ghost var a := RowBlocks(mat, row);
      RowOnZeros(BarRow(a), zb.im, |a|);
      assert RowRing(a, z) == RingK(InnerProduct(BarRow(a), zb.re, 0, |a|), Zero);
      RScaleZero(RowRing(a, z), out);
      if chi[row] == KZero {
        continue;
      }
      out := AddWeightedRow(out, chi[row], cache.rowBlocks[row], a, zb.re);
    }
  }

  method AddWeightedRow(start: RingK, w: K, list: seq<RowBlock>, ghost a: seq<Rq>, z: seq<Rq>) returns (out: RingK)
    requires Represents(list, a, |a|) && |a| == |z|
    ensures out == RPlus(start, RScale(w, RingK(InnerProduct(BarRow(a), z, 0, |a|), Zero)))
  {
    hide Bar, Times, Plus, Scale, Represents, RScale;
    SparseBlocksFit(list, a, |a|);
    ScaleZeros(w.re, D);
    ScaleZeros(w.im, D);
    PlusZeros(start.re);
    PlusZeros(start.im);
    var re, im := start.re, start.im;
    for i := 0 to |list|
      invariant re == Plus(start.re, Scale(w.re, SparseRing(list[..i], z)))
      invariant im == Plus(start.im, Scale(w.im, SparseRing(list[..i], z)))
    {
      assert list[..i + 1][..i] == list[..i];
      var prod := MulRq(list[i].bar, z[list[i].blk]);
      JoinTerm(start.re, w.re, SparseRing(list[..i], z), prod);
      JoinTerm(start.im, w.im, SparseRing(list[..i], z), prod);
      re := Plus(re, Scale(w.re, prod));
      im := Plus(im, Scale(w.im, prod));
    }
    assert list[..|list|] == list;
    SparseRingIsRow(list, a, z, |a|);
    RScaleReal(w, InnerProduct(BarRow(a), z, 0, |a|));
    out := RingK(re, im);
  }

  lemma JoinTerm(start: Rq, w: Fq, sum: Rq, term: Rq)
    ensures Plus(Plus(start, Scale(w, sum)), Scale(w, term)) == Plus(start, Scale(w, Plus(sum, term)))
  {
    ScalePlus(w, sum, term);
    PlusAssoc(start, Scale(w, sum), Scale(w, term));
  }

  // ----- real z: the rows aggregate -----

  function FScale(c: Fq, row: seq<Rq>): (r: seq<Rq>)
    ensures |r| == |row|
  {
    seq(|row|, b requires 0 <= b < |row| => Scale(c, row[b]))
  }

  /** The combination of the first n transformed rows. */
  function AggRow(mat: CcsMatrix, w: seq<Fq>, n: nat): (r: seq<Rq>)
    requires mat.Valid() && n <= |w|
    ensures |r| == BlockCount(mat.Cols())
  {
    if n == 0 then SZeros(BlockCount(mat.Cols()))
    else SPlus(AggRow(mat, w, n - 1), FScale(w[n - 1], BarRow(RowBlocks(mat, n - 1))))
  }

  lemma {:induction false} InnerProductRowPlus(x: seq<Rq>, y: seq<Rq>, z: seq<Rq>, n: nat)
    requires |x| == |y| && n <= |x| && n <= |z|
    ensures InnerProduct(SPlus(x, y), z, 0, n) == Plus(InnerProduct(x, z, 0, n), InnerProduct(y, z, 0, n))
  {
    hide Times;
    if n == 0 {
      PlusZeros(Zero);
    } else {
      InnerProductRowPlus(x, y, z, n - 1);
      TimesPlus(z[n - 1], x[n - 1], y[n - 1]);
      PlusSwap(InnerProduct(x, z, 0, n - 1), InnerProduct(y, z, 0, n - 1), Times(x[n - 1], z[n - 1]), Times(y[n - 1], z[n - 1]));
      hide Plus;
    }
  }

  lemma {:induction false} InnerProductRowScale(c: Fq, x: seq<Rq>, z: seq<Rq>, n: nat)
    requires n <= |x| && n <= |z|
    ensures InnerProduct(FScale(c, x), z, 0, n) == Scale(c, InnerProduct(x, z, 0, n))
  {
    hide Times, Mul;
    if n == 0 {
      ScaleZeros(c, D);
    } else {
      InnerProductRowScale(c, x, z, n - 1);
      TimesScale(c, x[n - 1], z[n - 1]);
      ScalePlus(c, InnerProduct(x, z, 0, n - 1), Times(x[n - 1], z[n - 1]));
      hide Plus, Scale;
    }
  }

  ghost predicate IsReal(z: seq<K>) {
    forall c :: 0 <= c < |z| ==> z[c].im == 0
  }

  function Parts(chi: seq<K>, im: bool): (w: seq<Fq>)
    ensures |w| == |chi|
  {
    seq(|chi|, i requires 0 <= i < |chi| => if im then chi[i].im else chi[i].re)
  }

  lemma RScaleReal(w: K, x: Rq)
    ensures RScale(w, RingK(x, Zero)) == RingK(Scale(w.re, x), Scale(w.im, x))
  {
    var y := RScale(w, RingK(x, Zero));
    forall i | 0 <= i < D
      ensures y.re[i] == Scale(w.re, x)[i] && y.im[i] == Scale(w.im, x)[i]
    {
      BaseTimes(x[i], w);
      KMulComm(w, FromBase(x[i]));
      MulComm(x[i], w.re);
      MulComm(x[i], w.im);
      hide KMul, Mul;
    }
  }

  /** For real z the evaluation is one pair of aggregated rows applied to the blocks of z. */
  lemma {:induction false} RealMleIsAggregated(mat: CcsMatrix, z: seq<K>, chi: seq<K>, n: nat)
    requires mat.Valid() && n <= |chi| && BlockCount(|z|) == BlockCount(mat.Cols()) && IsReal(z)
    ensures var (zre, b) := (BlocksOfPart(z, false), BlockCount(|z|));
            RingMle(mat, z, chi, n)
            == RingK(InnerProduct(AggRow(mat, Parts(chi, false), n), zre, 0, b),
                     InnerProduct(AggRow(mat, Parts(chi, true), n), zre, 0, b))
  {
    hide Plus, Scale, KMul, RowBlocks, Times, BlocksOfPart, BarRow, FScale, SPlus, RScale;
    var zre, b := BlocksOfPart(z, false), BlockCount(|z|);
    if n == 0 {
      ZeroRow(b, zre);
    } else {
      RealMleIsAggregated(mat, z, chi, n - 1);
      var a := BarRow(RowBlocks(mat, n - 1));
      ImaginaryBlocks(z);
      RowOnZeros(a, BlocksOfPart(z, true), b);
      hide InnerProduct;
      RScaleReal(chi[n - 1], InnerProduct(a, zre, 0, b));
      AggStep(mat, Parts(chi, false), n, zre, b);
      AggStep(mat, Parts(chi, true), n, zre, b);
    }
  }

  lemma {:induction false} ZeroRow(b: nat, z: seq<Rq>)
    requires b <= |z|
    ensures InnerProduct(SZeros(b), z, 0, b) == Zero
  {
    ZeroRowUpTo(b, z, b);
  }

  lemma {:induction false} ZeroRowUpTo(b: nat, z: seq<Rq>, n: nat)
    requires n <= b && n <= |z|
    ensures InnerProduct(SZeros(b), z, 0, n) == Zero
  {
    hide Times;
    if n != 0 {
      ZeroRowUpTo(b, z, n - 1);
      TimesOne(z[n - 1]);
      PlusZeros(Zero);
    }
  }

  lemma AggStep(mat: CcsMatrix, w: seq<Fq>, n: nat, z: seq<Rq>, b: nat)
    requires mat.Valid() && 0 < n <= |w| && b == BlockCount(mat.Cols()) == |z|
    ensures var a := BarRow(RowBlocks(mat, n - 1));
            InnerProduct(AggRow(mat, w, n), z, 0, b)
            == Plus(InnerProduct(AggRow(mat, w, n - 1), z, 0, b), Scale(w[n - 1], InnerProduct(a, z, 0, b)))
  {
    hide InnerProduct, Plus, Scale, RowBlocks, BarRow, SPlus, FScale;
    var a := BarRow(RowBlocks(mat, n - 1));
    InnerProductRowPlus(AggRow(mat, w, n - 1), FScale(w[n - 1], a), z, b);
    InnerProductRowScale(w[n - 1], a, z, b);
  }

  // ----- the aggregated evaluator -----

  /** Sum of the listed terms. */
  function SumListed(terms: seq<Rq>, list: seq<nat>): Rq
    requires forall i :: 0 <= i < |list| ==> list[i] < |terms|
  {
    if list == [] then Zero
    else
      var n := |list| - 1;
      Plus(SumListed(terms, list[..n]), terms[list[n]])
  }

  function SumAll(terms: seq<Rq>, n: nat): Rq
    requires n <= |terms|
  {
    if n == 0 then Zero else Plus(SumAll(terms, n - 1), terms[n - 1])
  }

  ghost predicate DistinctBlocks(list: seq<nat>) {
    forall i, j :: 0 <= i < j < |list| ==> list[i] != list[j]
  }

  lemma {:induction false} SumAllUpdate(terms: seq<Rq>, b: nat, n: nat)
    requires b < |terms| && n <= |terms|
    ensures SumAll(terms, n) == if b < n then Plus(SumAll(terms[b := Zero], n), terms[b]) else SumAll(terms[b := Zero], n)
  {
    hide Plus;
    if n != 0 {
      SumAllUpdate(terms, b, n - 1);
      var s := SumAll(terms[b := Zero], n - 1);
      PlusZeros(s);
      if n - 1 > b {
        PlusAssoc(s, terms[b], terms[n - 1]);
        PlusComm(terms[b], terms[n - 1]);
        PlusAssoc(s, terms[n - 1], terms[b]);
      }
    }
  }

  lemma {:induction false} SumListedUpdate(terms: seq<Rq>, list: seq<nat>, b: nat)
    requires b < |terms| && b !in list && forall i :: 0 <= i < |list| ==> list[i] < |terms|
    ensures SumListed(terms[b := Zero], list) == SumListed(terms, list)
  {
    hide Plus;
    if list != [] {
      var n := |list| - 1;
      assert list[n] in list && b !in list[..n];
      SumListedUpdate(terms, list[..n], b);
    }
  }

  lemma {:induction false} AllZeroSum(terms: seq<Rq>, n: nat)
    requires n <= |terms| && forall b :: 0 <= b < n ==> terms[b] == Zero
    ensures SumAll(terms, n) == Zero
  {
    if n != 0 {
      AllZeroSum(terms, n - 1);
      PlusZeros(Zero);
    }
  }

  /** Any order of the nonzero terms gives the whole sum. */
  lemma {:induction false} AnyOrderSums(terms: seq<Rq>, list: seq<nat>)
    requires DistinctBlocks(list) && forall i :: 0 <= i < |list| ==> list[i] < |terms|
    requires forall b :: 0 <= b < |terms| && b !in list ==> terms[b] == Zero
    ensures SumListed(terms, list) == SumAll(terms, |terms|)
    decreases |list|
  {
    hide Plus;
    if list == [] {
      AllZeroSum(terms, |terms|);
    } else {
      var n := |list| - 1;
      var b, rest, cleared := list[n], list[..n], terms[list[n] := Zero];
      assert b !in rest;
      forall c | 0 <= c < |terms| && c !in rest
        ensures cleared[c] == Zero
      {
        if c != b {
          assert list == rest + [b];
        }
      }
      AnyOrderSums(cleared, rest);
      SumListedUpdate(terms, rest, b);
      SumAllUpdate(terms, b, |terms|);
    }
  }

  function Products(agg: seq<Rq>, z: seq<Rq>): (t: seq<Rq>)
    requires |agg| == |z|
    ensures |t| == |agg|
  {
    seq(|agg|, b requires 0 <= b < |agg| => Times(agg[b], z[b]))
  }

  lemma {:induction false} ProductsSum(agg: seq<Rq>, z: seq<Rq>, n: nat)
    requires |agg| == |z| && n <= |agg|
    ensures SumAll(Products(agg, z), n) == InnerProduct(agg, z, 0, n)
  {
    hide Times, Plus;
    if n != 0 {
      ProductsSum(agg, z, n - 1);
    }
  }

  /** The aggregated blocks of both weight parts, and which blocks were touched. */
  datatype Aggregate = Aggregate(re: seq<Rq>, im: seq<Rq>, touched: seq<bool>, active: seq<nat>)

  ghost predicate AggregateOk(g: Aggregate, re: seq<Rq>, im: seq<Rq>) {
    && g.re == re && g.im == im && |re| == |im| == |g.touched|
    && DistinctBlocks(g.active)
    && (forall i :: 0 <= i < |g.active| ==> g.active[i] < |re|)
    && (forall b :: 0 <= b < |re| ==> (g.touched[b] <==> b in g.active))
    && (forall b :: 0 <= b < |re| && b !in g.active ==> re[b] == Zero && im[b] == Zero)
  }

  /** `add_scaled_rq`. */
  method AddScaled(dst: Rq, src: Rq, scale: Fq) returns (r: Rq)
    ensures r == Plus(dst, Scale(scale, src))
  {
    hide Mul, Add;
    if scale == 0 {
      ScaleOne(src);
      PlusZeros(dst);
      return dst;
    }
    r := dst;
    for i := 0 to D
      invariant forall k :: 0 <= k < D ==> r[k] == if k < i then Add(dst[k], Mul(scale, src[k])) else dst[k]
    {
      r := r[i := Add(r[i], Mul(scale, src[i]))];
    }
  }

  /** One weighted block joins the aggregate. */
  method AggregateBlock(g: Aggregate, blk: nat, bar: Rq, wre: Fq, wim: Fq) returns (out: Aggregate)
    requires AggregateOk(g, g.re, g.im) && blk < |g.re|
    ensures AggregateOk(out, out.re, out.im)
    ensures out.re == g.re[blk := Plus(g.re[blk], Scale(wre, bar))]
    ensures out.im == g.im[blk := Plus(g.im[blk], Scale(wim, bar))]
  {
    hide Plus, Scale;
    var active, touched := g.active, g.touched;
    if !touched[blk] {
      active, touched := active + [blk], touched[blk := true];
    }
    var re := AddScaled(g.re[blk], bar, wre);
    var im := AddScaled(g.im[blk], bar, wim);
    TouchKeepsOk(g, blk, re, im);
    out := Aggregate(g.re[blk := re], g.im[blk := im], touched, active);
  }

  /** The blocks of the first rows of the list have joined. */
  ghost predicate Joined(now: seq<Rq>, base: seq<Rq>, a: seq<Rq>, w: Fq, list: seq<RowBlock>) {
    && |now| == |base| == |a|
    && forall b :: 0 <= b < |a| ==> now[b] == if Listed(list, b) then Plus(base[b], Scale(w, BarRow(a)[b])) else base[b]
  }

  lemma JoinedStep(now: seq<Rq>, base: seq<Rq>, a: seq<Rq>, w: Fq, list: seq<RowBlock>, i: nat)
    requires Represents(list, a, |a|) && i < |list| && Joined(now, base, a, w, list[..i])
    ensures list[i].blk < |a|
    ensures var k := list[i].blk; Joined(now[k := Plus(now[k], Scale(w, list[i].bar))], base, a, w, list[..i + 1])
  {
    hide Bar, Plus, Scale;
    RepresentsEntry(list, a, i);
    hide Represents;
    forall b | 0 <= b < |a|
      ensures Listed(list[..i + 1], b) <==> Listed(list[..i], b) || b == list[i].blk
    {
      ListedGrows(list, i, b);
    }
    hide Listed, BarRow;
  }

  lemma JoinedAll(now: seq<Rq>, base: seq<Rq>, a: seq<Rq>, w: Fq, list: seq<RowBlock>)
    requires Represents(list, a, |a|) && Joined(now, base, a, w, list)
    ensures now == SPlus(base, FScale(w, BarRow(a)))
  {
    hide Bar, Plus, Scale;
    UnlistedRows(list, a, base, w);
  }

  /** One weighted row joins the aggregate. */
  method AggregateRow(g: Aggregate, list: seq<RowBlock>, ghost a: seq<Rq>, wre: Fq, wim: Fq) returns (out: Aggregate)
    requires Represents(list, a, |a|) && |a| == |g.re| == |g.im| && AggregateOk(g, g.re, g.im)
    ensures AggregateOk(out, SPlus(g.re, FScale(wre, BarRow(a))), SPlus(g.im, FScale(wim, BarRow(a))))
  {
    out := g;
    NoneJoined(g.re, a, wre);
    NoneJoined(g.im, a, wim);
    hide Represents, AggregateOk, Joined, Plus, Scale, SPlus, FScale, BarRow;
    AggregateSizes(g);
    for i := 0 to |list|
      invariant AggregateOk(out, out.re, out.im) && |out.re| == |out.im| == |a|
      invariant Joined(out.re, g.re, a, wre, list[..i]) && Joined(out.im, g.im, a, wim, list[..i])
    {
      JoinedStep(out.re, g.re, a, wre, list, i);
      JoinedStep(out.im, g.im, a, wim, list, i);
      out := AggregateBlock(out, list[i].blk, list[i].bar, wre, wim);
    }
    assert list[..|list|] == list;
    JoinedAll(out.re, g.re, a, wre, list);
    JoinedAll(out.im, g.im, a, wim, list);
  }

  lemma AggregateSizes(g: Aggregate)
    requires AggregateOk(g, g.re, g.im)
    ensures |g.re| == |g.im|
  {}

  lemma NoneJoined(base: seq<Rq>, a: seq<Rq>, w: Fq)
    requires |base| == |a|
    ensures forall list: seq<RowBlock> :: Joined(base, base, a, w, list[..0])
  {}

  lemma TouchKeepsOk(g: Aggregate, blk: nat, re: Rq, im: Rq)
    requires AggregateOk(g, g.re, g.im) && blk < |g.re|
    ensures var (active, touched) :=
              if g.touched[blk] then (g.active, g.touched) else (g.active + [blk], g.touched[blk := true]);
            var out := Aggregate(g.re[blk := re], g.im[blk := im], touched, active);
            AggregateOk(out, out.re, out.im)
  {}

  lemma RepresentsEntry(list: seq<RowBlock>, a: seq<Rq>, i: nat)
    requires Represents(list, a, |a|) && i < |list|
    ensures list[i].blk < |a| && list[i].bar == BarRow(a)[list[i].blk]
    ensures !Listed(list[..i], list[i].blk)
  {
    hide Bar;
    ListedGrows(list, i, 0);
  }

  lemma UnlistedRows(list: seq<RowBlock>, a: seq<Rq>, base: seq<Rq>, w: Fq)
    requires Represents(list, a, |a|) && |a| == |base|
    ensures forall b :: 0 <= b < |a| && !Listed(list, b) ==> Plus(base[b], Scale(w, BarRow(a)[b])) == base[b]
  {
    hide Bar, Plus, Scale;
    forall b | 0 <= b < |a| && !Listed(list, b)
      ensures Plus(base[b], Scale(w, BarRow(a)[b])) == base[b]
    {
      BarZero(Zero);
      ScaleZeros(w, D);
      PlusZeros(base[b]);
    }
  }

  /** The products of the active blocks with z. */
  method ActiveProducts(agg: seq<Rq>, active: seq<nat>, z: seq<Rq>) returns (out: Rq)
    requires |agg| == |z| && DistinctBlocks(active) && forall i :: 0 <= i < |active| ==> active[i] < |agg|
    requires forall b :: 0 <= b < |agg| && b !in active ==> agg[b] == Zero
    ensures out == InnerProduct(agg, z, 0, |agg|)
  {
    hide Times, Plus;
    ghost var terms := Products(agg, z);
    out := Zero;
    for i := 0 to |active|
      invariant out == SumListed(terms, active[..i])
    {
      assert active[..i + 1][..i] == active[..i];
      var blk := active[i];
      if agg[blk] == Zero {
        TimesOne(z[blk]);
        PlusZeros(out);
      } else {
        var prod := MulRq(agg[blk], z[blk]);
        out := Plus(out, prod);
      }
    }
    assert active[..|active|] == active;
    forall b | 0 <= b < |agg| && b !in active
      ensures terms[b] == Zero
    {
      TimesOne(z[b]);
    }
    AnyOrderSums(terms, active);
    ProductsSum(agg, z, |agg|);
  }

  /** `eval_mle_ring_with_blocks_split_chi`: one product per touched block. */
  method EvalSplitChi(cache: MatrixCache, ghost mat: CcsMatrix, zre: seq<Rq>, chiRe: seq<Fq>, chiIm: seq<Fq>, nEff: nat)
    returns (out: RingK)
    requires mat.Valid() && CacheOk(cache, mat) && |zre| == BlockCount(mat.Cols()) && |chiRe| == |chiIm|
    ensures var n := Min(Min(mat.Rows(), nEff), |chiRe|);
            out == RingK(InnerProduct(AggRow(mat, chiRe, n), zre, 0, |zre|), InnerProduct(AggRow(mat, chiIm, n), zre, 0, |zre|))
    ensures var n := mat.Rows();
            n <= nEff && n <= |chiRe| ==>
              out == RingK(InnerProduct(AggRow(mat, chiRe, n), zre, 0, |zre|),
                           InnerProduct(AggRow(mat, chiIm, n), zre, 0, |zre|))
  {
    hide SPlus, FScale, BarRow, RowBlocks, Represents, InnerProduct;
    var g := Aggregate(SZeros(|zre|), SZeros(|zre|), seq(|zre|, i => false), []);
    for row := 0 to Min(Min(cache.rows, nEff), |chiRe|)
      invariant AggregateOk(g, AggRow(mat, chiRe, row), AggRow(mat, chiIm, row))
    {
      assert RowCached(cache.rowBlocks[row], mat, row);
      if chiRe[row] == 0 && chiIm[row] == 0 {
        SkippedRow(AggRow(mat, chiRe, row), BarRow(RowBlocks(mat, row)));
        SkippedRow(AggRow(mat, chiIm, row), BarRow(RowBlocks(mat, row)));
        continue;
      }
      g := AggregateRow(g, cache.rowBlocks[row], RowBlocks(mat, row), chiRe[row], chiIm[row]);
    }
    var re := ActiveProducts(g.re, g.active, zre);
    var im := ActiveProducts(g.im, g.active, zre);
    out := RingK(re, im);
  }

  lemma SkippedRow(base: seq<Rq>, row: seq<Rq>)
    requires |base| == |row|
    ensures SPlus(base, FScale(0, row)) == base
  {
    hide Plus, Scale;
    forall b | 0 <= b < |base|
      ensures Plus(base[b], Scale(0, row[b])) == base[b]
    {
      ScaleOne(row[b]);
      PlusZeros(base[b]);
    }
  }

  /** `eval_all_mats_ring_cached_with_blocks`, one matrix: the aggregated form whenever z is real. */
  method EvalRingCached(cache: MatrixCache, ghost mat: CcsMatrix, z: seq<K>, chi: seq<K>, nEff: nat) returns (out: RingK)
    requires mat.Valid() && CacheOk(cache, mat) && BlockCount(|z|) == BlockCount(mat.Cols())
    ensures out == RingMle(mat, z, chi, Min(Min(mat.Rows(), nEff), |chi|))
    ensures mat.Rows() <= nEff && mat.Rows() <= |chi| ==> out == RingMle(mat, z, chi, mat.Rows())
  {
    hide InnerProduct, AggRow, RingMle;
    var zb := SplitBlocks(z);
    if zb.imagAllZero {
      ghost var n := Min(Min(mat.Rows(), nEff), |chi|);
      RealMleIsAggregated(mat, z, chi, n);
      out := EvalSplitChi(cache, mat, zb.re, Parts(chi, false), Parts(chi, true), Min(nEff, |chi|));
    } else {
      out := EvalMleRing(cache, mat, zb, z, chi, nEff);
    }
  }

  // ----- weighted projections -----

  /** `weighted_projection_form`: coefficient j pairs the weights with X^j lhs. */
  method WeightedProjectionForm(lhs: Rq, weights: Rq) returns (form: Rq)
    ensures forall z: Rq :: Dot(form, z, D) == Dot(weights, Times(lhs, z), D)
  {
    hide Act, Dot;
    form := Zero;
    for j := 0 to D
      invariant forall k :: 0 <= k < j ==> form[k] == Dot(weights, ShiftN(k, lhs), D)
    {
      var rotated := MulByMonomial(lhs, j);
      MulByMonomialExact(lhs, j);
      var d := CoeffDot(weights, rotated);
      form := form[j := d];
    }
    forall z: Rq
      ensures Dot(form, z, D) == Dot(weights, Times(lhs, z), D)
    {
      ProjectionDot(form, lhs, weights, z, D);
      assert z[..D] == z;
      TimesComm(lhs, z);
    }
  }

  lemma {:induction false} ProjectionDot(form: Rq, lhs: Rq, weights: Rq, z: Rq, n: nat)
    requires n <= D && forall k :: 0 <= k < D ==> form[k] == Dot(weights, ShiftN(k, lhs), D)
    ensures Dot(form, z, n) == Dot(weights, Act(z[..n], lhs), D)
  {
    if n == 0 {
      Matrices.DotComm(weights, Zero, D);
      Matrices.DotZeros(weights, D, D);
    } else {
      ProjectionDot(form, lhs, weights, z, n - 1);
      var x, rot := z[n - 1], ShiftN(n - 1, lhs);
      assert z[..n] == z[..n - 1] + [x];
      ActAppend(z[..n - 1], [x], lhs);
      ActSingle(x, rot);
      var u := Act(z[..n - 1], lhs);
      Matrices.DotComm(weights, Plus(u, Scale(x, rot)), D);
      Matrices.DotPlus(u, Scale(x, rot), weights, D);
      Matrices.DotScale(x, rot, weights, D);
      Matrices.DotComm(u, weights, D);
      Matrices.DotComm(rot, weights, D);
      MulComm(form[n - 1], x);
    }
    hide Act, Plus, Scale, Mul;
  }

  // ----- openings are linear over the ring -----

  /** The two ring rows whose products with the blocks of z are the opening of one matrix. */
  function OpeningRows(mat: CcsMatrix, chi: seq<K>, n: nat): (rows: seq<seq<Rq>>)
    requires mat.Valid() && n <= |chi|
    ensures |rows| == 2 && SameLength(rows, BlockCount(mat.Cols()))
  {
    [AggRow(mat, Parts(chi, false), n), AggRow(mat, Parts(chi, true), n)]
  }

  /** The ring evaluation of a real witness is a fixed matrix of ring elements times its blocks. */
  lemma OpeningIsCommitment(mat: CcsMatrix, z: seq<K>, chi: seq<K>, n: nat)
    requires mat.Valid() && n <= |chi| && BlockCount(|z|) == BlockCount(mat.Cols()) && IsReal(z)
    ensures var v := RingMle(mat, z, chi, n);
            [v.re, v.im] == CommitSpec(OpeningRows(mat, chi, n), BlocksOfPart(z, false))
  {
    hide RingMle, InnerProduct, AggRow;
    RealMleIsAggregated(mat, z, chi, n);
  }
}
