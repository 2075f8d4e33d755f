/**
 Rows of a CCS matrix in blocks of D coefficients: what a row evaluates to, directly, through the
 `bar` lift, and through cached sparse row blocks.
 */
module SuperNeo {
  import opened Field
  import opened Vectors
  import opened Ring
  import opened Rotations
  import opened Multiply
  import opened ExtField
  import opened Ajtai
  import opened Csc
  import opened Transform
  import Matrices

  // ----- blocks -----

  function BlockCount(cols: nat): (n: nat)
    ensures cols <= n * D < cols + D
  {
    (cols + D - 1) / D
  }

  function Chunk(v: Vec, b: nat): Rq
    requires (b + 1) * D <= |v|
  {
    v[b * D..(b + 1) * D]
  }

  /** The coefficients of row r, padded with zeros. */
  function RowVec(mat: CcsMatrix, r: nat, len: nat): (v: Vec)
    requires mat.Valid()
    ensures |v| == len
  {
    seq(len, c requires 0 <= c => mat.At(r, c))
  }

  /** Real or imaginary parts of z, padded with zeros. */
  function Part(z: seq<K>, im: bool, len: nat): (v: Vec)
    ensures |v| == len
  {
    seq(len, c requires 0 <= c => PartAt(z, im, c))
  }

  function PartAt(z: seq<K>, im: bool, c: nat): Fq {
    if c >= |z| then 0 else if im then z[c].im else z[c].re
  }

  function ChunksOf(v: Vec, n: nat): (s: seq<Rq>)
    requires |v| == n * D
    ensures |s| == n
  {
    seq(n, b requires 0 <= b < n => (ChunkFits(n, b); Chunk(v, b)))
  }

  lemma ChunkFits(n: nat, b: nat)
    requires b < n
    ensures (b + 1) * D <= n * D
  {}

  /** Row r as blocks. */
  function RowBlocks(mat: CcsMatrix, r: nat): (s: seq<Rq>)
    requires mat.Valid()
    ensures |s| == BlockCount(mat.Cols())
  {
    var n := BlockCount(mat.Cols());
    ChunksOf(RowVec(mat, r, n * D), n)
  }

  function BlocksOfPart(z: seq<K>, im: bool): (s: seq<Rq>)
    ensures |s| == BlockCount(|z|)
  {
    var n := BlockCount(|z|);
    ChunksOf(Part(z, im, n * D), n)
  }

  /** The first n block inner products. */
  function BlockDot(a: seq<Rq>, z: seq<Rq>, n: nat): Fq
    requires n <= |a| && n <= |z|
  {
    if n == 0 then 0 else Add(BlockDot(a, z, n - 1), Dot(a[n - 1], z[n - 1], D))
  }

  lemma {:induction false} DotInBlock(u: Vec, v: Vec, b: nat, i: nat)
    requires |u| == |v| && (b + 1) * D <= |u| && i <= D
    ensures Dot(u, v, b * D + i) == Add(Dot(u, v, b * D), Dot(Chunk(u, b), Chunk(v, b), i))
  {
    hide Mul;
    if i != 0 {
      DotInBlock(u, v, b, i - 1);
      var k := b * D + i - 1;
      assert u[k] == Chunk(u, b)[i - 1] && v[k] == Chunk(v, b)[i - 1];
      AddAssoc(Dot(u, v, b * D), Dot(Chunk(u, b), Chunk(v, b), i - 1), Mul(u[k], v[k]));
      hide Chunk, Add;
    }
  }

  lemma {:induction false} DotByBlocks(u: Vec, v: Vec, n: nat, k: nat)
    requires |u| == |v| == n * D && k <= n
    ensures k * D <= n * D && Dot(u, v, k * D) == BlockDot(ChunksOf(u, n), ChunksOf(v, n), k)
  {
    if k != 0 {
      DotByBlocks(u, v, n, k - 1);
      ChunkFits(n, k - 1);
      DotInBlock(u, v, k - 1, D);
      assert (k - 1) * D + D == k * D;
      hide Dot, Chunk;
    }
  }

  // ----- a row applied to z -----

  /** The value of a row of blocks on z: real and imaginary parts apart. */
  function RowValue(a: seq<Rq>, z: seq<K>): K
    requires |a| == BlockCount(|z|)
  {
    K(BlockDot(a, BlocksOfPart(z, false), |a|), BlockDot(a, BlocksOfPart(z, true), |a|))
  }

  lemma BaseTimes(a: Fq, x: K)
    ensures KMul(FromBase(a), x) == K(Mul(a, x.re), Mul(a, x.im))
  {
    MulOne(x.re);
    MulOne(x.im);
    MulOne(7);
    hide Mul;
  }

  lemma {:induction false} RowDotParts(mat: CcsMatrix, z: seq<K>, r: nat, len: nat, k: nat)
    requires mat.Valid() && k <= |z| <= len
    ensures MatRowDot(mat, z, r, k)
         == K(Dot(RowVec(mat, r, len), Part(z, false, len), k), Dot(RowVec(mat, r, len), Part(z, true, len), k))
  {
    hide KMul, Mul, Add, CcsMatrix.At;
    if k != 0 {
      RowDotParts(mat, z, r, len, k - 1);
      BaseTimes(mat.At(r, k - 1), z[k - 1]);
    }
  }

  lemma {:induction false} DotPadding(mat: CcsMatrix, z: seq<K>, r: nat, im: bool, len: nat, k: nat)
    requires mat.Valid() && |z| <= k <= len
    ensures Dot(RowVec(mat, r, len), Part(z, im, len), k) == Dot(RowVec(mat, r, len), Part(z, im, len), |z|)
    decreases k
  {
    hide Mul, CcsMatrix.At;
    if k > |z| {
      DotPadding(mat, z, r, im, len, k - 1);
      MulOne(mat.At(r, k - 1));
      assert Part(z, im, len)[k - 1] == 0;
    }
  }

  /** Direct evaluation of a row equals the block form. */
  lemma DirectIsBlocks(mat: CcsMatrix, z: seq<K>, r: nat)
    requires mat.Valid() && BlockCount(|z|) == BlockCount(mat.Cols())
    ensures MatRowDot(mat, z, r, |z|) == RowValue(RowBlocks(mat, r), z)
  {
    hide CcsMatrix.At, MatRowDot, Dot;
    var n := BlockCount(|z|);
    RowDotParts(mat, z, r, n * D, |z|);
    DotPadding(mat, z, r, false, n * D, n * D);
    DotPadding(mat, z, r, true, n * D, n * D);
    DotByBlocks(RowVec(mat, r, n * D), Part(z, false, n * D), n, n);
    DotByBlocks(RowVec(mat, r, n * D), Part(z, true, n * D), n, n);
  }

  // ----- the ring form -----

  function BarRow(a: seq<Rq>): (s: seq<Rq>)
    ensures |s| == |a|
  {
    seq(|a|, b requires 0 <= b < |a| => Bar(a[b]))
  }

  /** The constant term of the ring form of a row is its inner product. */
  lemma {:induction false} CtOfRow(a: seq<Rq>, z: seq<Rq>, n: nat)
    requires n <= |a| && n <= |z|
    ensures Ct(InnerProduct(BarRow(a), z, 0, n)) == BlockDot(a, z, n)
  {
    hide Bar, Times, Dot;
    if n != 0 {
      CtOfRow(a, z, n - 1);
      InnerProductTransform(a[n - 1], z[n - 1]);
    }
  }

  // ----- cached rows -----

  datatype RowBlock = RowBlock(blk: nat, bar: Rq, orig: Rq)

  /** The list holds the nonzero blocks of a in order, with their transforms. */
  ghost predicate Represents(list: seq<RowBlock>, a: seq<Rq>, n: nat) {
    && n <= |a|
    && (forall i :: 0 <= i < |list| ==> list[i].blk < n && list[i].orig == a[list[i].blk] && list[i].bar == Bar(list[i].orig))
    && (forall i, j :: 0 <= i < j < |list| ==> list[i].blk < list[j].blk)
    && (forall b :: 0 <= b < n && !Listed(list, b) ==> a[b] == Zero)
  }

  ghost predicate Listed(list: seq<RowBlock>, b: nat) {
    exists i :: 0 <= i < |list| && list[i].blk == b
  }

  /** The products of the listed blocks. */
  function SparseRing(list: seq<RowBlock>, z: seq<Rq>): Rq
    requires forall i :: 0 <= i < |list| ==> list[i].blk < |z|
  {
    if list == [] then Zero
    else
      var n := |list| - 1;
      Plus(SparseRing(list[..n], z), Times(list[n].bar, z[list[n].blk]))
  }

  lemma {:induction false} TailVanishes(a: seq<Rq>, z: seq<Rq>, k: nat, n: nat)
    requires k <= n <= |a| && n <= |z|
    requires forall b :: k <= b < n ==> a[b] == Zero
    ensures InnerProduct(BarRow(a), z, 0, n) == InnerProduct(BarRow(a), z, 0, k)
    decreases n
  {
    hide Bar, Times, Plus;
    if n > k {
      TailVanishes(a, z, k, n - 1);
      BarZero(Zero);
      TimesOne(z[n - 1]);
      PlusZeros(InnerProduct(BarRow(a), z, 0, k));
      assert BarRow(a)[n - 1] == Bar(Zero);
    }
  }

  /** Skipping the blocks whose transform vanishes loses nothing. */
  lemma {:induction false} SparseRingIsRow(list: seq<RowBlock>, a: seq<Rq>, z: seq<Rq>, n: nat)
    requires Represents(list, a, n) && n <= |z|
    ensures SparseRing(list, z) == InnerProduct(BarRow(a), z, 0, n)
    decreases |list|
  {
    hide Bar, Times, Plus;
    if list == [] {
      TailVanishes(a, z, 0, n);
    } else {
      var k := |list| - 1;
      var last, rest := list[k], list[..k];
      forall b | last.blk < b < n
        ensures a[b] == Zero
      {
        assert !Listed(list, b);
      }
      TailVanishes(a, z, last.blk + 1, n);
      RestRepresents(list, a, n);
      SparseRingIsRow(rest, a, z, last.blk);
      assert BarRow(a)[last.blk] == last.bar;
    }
  }

  lemma RestRepresents(list: seq<RowBlock>, a: seq<Rq>, n: nat)
    requires Represents(list, a, n) && list != []
    ensures Represents(list[..|list| - 1], a, list[|list| - 1].blk)
  {
    hide Bar;
    var k := |list| - 1;
    forall b | 0 <= b < list[k].blk && !Listed(list[..k], b)
      ensures a[b] == Zero
    {
      assert !Listed(list, b);
    }
  }

  // ----- row evaluators -----

  /** `coeff_dot`. */
  method CoeffDot(lhs: Rq, rhs: Rq) returns (acc: Fq)
    ensures acc == Dot(lhs, rhs, D)
  {
    hide Mul, Add;
    acc := 0;
    for i := 0 to D
      invariant acc == Dot(lhs, rhs, i)
    {
      acc := Add(acc, Mul(lhs[i], rhs[i]));
    }
  }

  lemma {:induction false} SparseBlocksFit(list: seq<RowBlock>, a: seq<Rq>, n: nat)
    requires Represents(list, a, n)
    ensures forall i :: 0 <= i < |list| ==> list[i].blk < n
  {}

  /** The inner products of the listed blocks: the constant term of their products. */
  method ListedDot(list: seq<RowBlock>, ghost a: seq<Rq>, z: seq<Rq>) returns (acc: Fq)
    requires Represents(list, a, |a|) && |a| == |z|
    ensures acc == BlockDot(a, z, |a|)
  {
    hide Bar, Times, Dot, Represents;
    SparseBlocksFit(list, a, |a|);
    acc := 0;
    for i := 0 to |list|
      invariant acc == Ct(SparseRing(list[..i], z))
    {
      assert list[..i + 1][..i] == list[..i];
      RepresentsAt(list, a, |a|, i);
      InnerProductTransform(list[i].orig, z[list[i].blk]);
      var d := CoeffDot(list[i].orig, z[list[i].blk]);
      acc := Add(acc, d);
    }
    assert list[..|list|] == list;
    SparseRingIsRow(list, a, z, |a|);
    CtOfRow(a, z, |a|);
  }

  lemma RepresentsAt(list: seq<RowBlock>, a: seq<Rq>, n: nat, i: nat)
    requires Represents(list, a, n) && i < |list|
    ensures list[i].bar == Bar(list[i].orig)
  {}

  datatype ZBlocks = ZBlocks(re: seq<Rq>, im: seq<Rq>, imagAllZero: bool)

  ghost predicate BlocksOf(zb: ZBlocks, z: seq<K>) {
    && zb.re == BlocksOfPart(z, false) && zb.im == BlocksOfPart(z, true)
    && (zb.imagAllZero ==> forall b :: 0 <= b < |zb.im| ==> zb.im[b] == Zero)
  }

  /** `SuperneoZBlocks::from_z`. */
  method SplitBlocks(z: seq<K>) returns (zb: ZBlocks)
    ensures BlocksOf(zb, z) && (zb.imagAllZero <==> forall c :: 0 <= c < |z| ==> z[c].im == 0)
  {
    var n := BlockCount(|z|);
    var re: seq<Rq>, im: seq<Rq>, allZero := [], [], true;
    for b := 0 to n
      invariant |re| == |im| == b
      invariant re == BlocksOfPart(z, false)[..b] && im == BlocksOfPart(z, true)[..b]
      invariant allZero <==> forall k :: 0 <= k < b ==> im[k] == Zero
    {
      var zr, zi, zero := SplitBlock(z, b);
      ChunkFits(n, b);
      assert zr == BlocksOfPart(z, false)[b] && zi == BlocksOfPart(z, true)[b];
      re, im, allZero := re + [zr], im + [zi], allZero && zero;
    }
    zb := ZBlocks(re, im, allZero);
    ImaginaryBlocks(z);
  }

  /** All imaginary blocks vanish exactly when z is real. */
  lemma ImaginaryBlocks(z: seq<K>)
    ensures var im := BlocksOfPart(z, true);
            (forall b :: 0 <= b < |im| ==> im[b] == Zero) <==> forall c :: 0 <= c < |z| ==> z[c].im == 0
  {
    var n, im := BlockCount(|z|), BlocksOfPart(z, true);
    forall b, i | 0 <= b < n && 0 <= i < D
      ensures im[b][i] == PartAt(z, true, b * D + i)
    {
      ChunkFits(n, b);
    }
    if forall b :: 0 <= b < n ==> im[b] == Zero {
      forall c | 0 <= c < |z|
        ensures z[c].im == 0
      {
        assert im[c / D][c % D] == PartAt(z, true, c / D * D + c % D);
      }
    }
  }

  method SplitBlock(z: seq<K>, b: nat) returns (zr: Rq, zi: Rq, zero: bool)
    ensures forall i :: 0 <= i < D ==> zr[i] == PartAt(z, false, b * D + i) && zi[i] == PartAt(z, true, b * D + i)
    ensures zero <==> zi == Zero
  {
    zr, zi, zero := Zero, Zero, true;
    for i := 0 to D
      invariant forall k :: 0 <= k < D ==> zr[k] == if k < i then PartAt(z, false, b * D + k) else 0
      invariant forall k :: 0 <= k < D ==> zi[k] == if k < i then PartAt(z, true, b * D + k) else 0
      invariant zero <==> forall k :: 0 <= k < D ==> zi[k] == 0
    {
      if b * D + i < |z| {
        ghost var before := zi;
        assert forall k :: 0 <= k < D && k != i ==> before[k] == zi[i := z[b * D + i].im][k];
        zr, zi := zr[i := z[b * D + i].re], zi[i := z[b * D + i].im];
        zero := zero && z[b * D + i].im == 0;
        assert before[i] == 0 && zi[i] == z[b * D + i].im;
      }
    }
  }

  lemma {:induction false} BlockDotZeros(a: seq<Rq>, z: seq<Rq>, n: nat)
    requires n <= |a| && n <= |z| && forall b :: 0 <= b < n ==> z[b] == Zero
    ensures BlockDot(a, z, n) == 0
  {
    hide Dot;
    if n != 0 {
      BlockDotZeros(a, z, n - 1);
      Matrices.DotComm(a[n - 1], Zero, D);
      Matrices.DotZeros(a[n - 1], D, D);
    }
  }

  /** `row_dot_with_blocks`: the cached row evaluates to the row itself. */
  method RowDotWithBlocks(list: seq<RowBlock>, ghost a: seq<Rq>, zb: ZBlocks, ghost z: seq<K>) returns (v: K)
    requires Represents(list, a, |a|) && BlocksOf(zb, z) && |a| == BlockCount(|z|)
    ensures v == RowValue(a, z)
  {
    hide Represents, BlockDot;
    var re := ListedDot(list, a, zb.re);
    if zb.imagAllZero {
      BlockDotZeros(a, zb.im, |a|);
      return K(re, 0);
    }
    var im := ListedDot(list, a, zb.im);
    v := K(re, im);
  }

  /** `superneo_row_dot_from_original`: `bar` lift on the fly, constant terms of ring products. */
  method RowDotFromOriginal(mat: CcsMatrix, r: nat, z: seq<K>) returns (v: K)
    requires mat.Valid() && |z| == mat.Cols()
    ensures v == RowValue(RowBlocks(mat, r), z)
  {
    hide Times, Bar, CcsMatrix.At, Dot, RowBlocks, BlocksOfPart;
    ghost var a := RowBlocks(mat, r);
    ghost var zr, zi := BlocksOfPart(z, false), BlocksOfPart(z, true);
    var n := BlockCount(|z|);
    if r >= mat.Rows() {
      OutsideRow(mat, r, zr, n);
      OutsideRow(mat, r, zi, n);
      return KZero;
    }
    var re: Fq, im: Fq := 0, 0;
    for b := 0 to n
      invariant re == BlockDot(a, zr, b) && im == BlockDot(a, zi, b)
    {
      var dr, di := LiftedBlockDot(mat, r, z, b);
      re, im := Add(re, dr), Add(im, di);
    }
    v := K(re, im);
  }

  /** One block of a row: `bar` lift, two ring products, two constant terms. */
  method LiftedBlockDot(mat: CcsMatrix, r: nat, z: seq<K>, b: nat) returns (re: Fq, im: Fq)
    requires mat.Valid() && |z| == mat.Cols() && b < BlockCount(|z|)
    ensures re == Dot(RowBlocks(mat, r)[b], BlocksOfPart(z, false)[b], D)
    ensures im == Dot(RowBlocks(mat, r)[b], BlocksOfPart(z, true)[b], D)
  {
    hide Times, Bar, CcsMatrix.At, Dot;
    ChunkFits(BlockCount(|z|), b);
    var block := LoadBlock(mat, r, b);
    var zbr, zbi, zero := SplitBlock(z, b);
    assert block == RowBlocks(mat, r)[b] && zbr == BlocksOfPart(z, false)[b] && zbi == BlocksOfPart(z, true)[b];
    var bar := SuperneoBarBlock(block);
    var pr := MulRq(bar, zbr);
    var pi := MulRq(bar, zbi);
    InnerProductTransform(block, zbr);
    InnerProductTransform(block, zbi);
    re, im := Ct(pr), Ct(pi);
  }

  lemma {:induction false} OutsideRow(mat: CcsMatrix, r: nat, z: seq<Rq>, n: nat)
    requires mat.Valid() && r >= mat.Rows() && n <= BlockCount(mat.Cols()) && n <= |z|
    ensures BlockDot(RowBlocks(mat, r), z, n) == 0
  {
    hide Dot;
    if n != 0 {
      OutsideRow(mat, r, z, n - 1);
      ChunkFits(BlockCount(mat.Cols()), n - 1);
      assert RowBlocks(mat, r)[n - 1] == Zeros(D);
      Matrices.DotZeros(z[n - 1], D, D);
    }
  }

  method LoadBlock(mat: CcsMatrix, r: nat, b: nat) returns (block: Rq)
    requires mat.Valid()
    ensures forall i :: 0 <= i < D ==> block[i] == mat.At(r, b * D + i)
  {
    hide CcsMatrix.At;
    block := Zero;
    for i := 0 to D
      invariant forall k :: 0 <= k < i ==> block[k] == mat.At(r, b * D + k)
    {
      block := block[i := mat.At(r, b * D + i)];
    }
  }
}
