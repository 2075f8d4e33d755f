/**
 Folding chunk by chunk: random linear combination, balanced split, recommitment.  Commitments and
 ring openings are both fixed matrices of ring elements applied to the witness, so one argument
 serves both.
 */
module Fold {
  import opened Arithmetic
  import opened Field
  import opened Vectors
  import opened Ring
  import opened Rotations
  import opened ExtField
  import opened Ajtai
  import opened Digits
  import opened Norms
  import opened Streaming
  import opened Csc
  import opened SuperNeo
  import opened RingEval

  // ----- powers of the base -----

  /** b^i as a ring scalar. */
  function PowRho(b: nat, i: nat): Rq { Scale(Red(Pow(b, i)), One) }

  function PowRhos(b: nat, k: nat): (rhos: seq<Rq>)
    ensures |rhos| == k
  {
    seq(k, i requires 0 <= i => PowRho(b, i))
  }

  lemma ScalarTimes(c: Fq, x: Rq)
    ensures Times(Scale(c, One), x) == Scale(c, x)
  {
    TimesScale(c, One, x);
    TimesOne(x);
  }

  // ----- the children of a split -----

  /** Digit i of every coefficient. */
  function Child(z: seq<Rq>, b: nat, i: nat): (d: seq<Rq>)
    requires b >= 2
    ensures |d| == |z|
  {
    seq(|z|, j requires 0 <= j < |z| => ChildColumn(z[j], b, i))
  }

  function ChildColumn(col: Rq, b: nat, i: nat): Rq
    requires b >= 2
  {
    seq(D, r requires 0 <= r < D => Red(Digit(Centered(col[r]), b, i)))
  }

  function Children(z: seq<Rq>, b: nat, k: nat): (ds: seq<seq<Rq>>)
    requires b >= 2
    ensures |ds| == k && SameLength(ds, |z|)
  {
    seq(k, i requires 0 <= i => Child(z, b, i))
  }

  lemma {:induction false} DigitSumLast(v: int, b: int, k: nat)
    requires b >= 2
    ensures DigitSum(v, b, k + 1) == DigitSum(v, b, k) + Pow(b, k) * Digit(v, b, k)
    decreases k
  {
    hide DigitStep, Quotient;
    if k == 0 {
      assert DigitSum(v, b, 1) == DigitStep(v, b) + b * DigitSum(Quotient(v, b), b, 0);
    } else {
      var q := Quotient(v, b);
      DigitSumLast(q, b, k - 1);
      LastTerm(b, DigitSum(q, b, k - 1), Pow(b, k - 1), Digit(q, b, k - 1));
    }
  }

  lemma LastTerm(b: int, s: int, p: int, d: int)
    ensures b * (s + p * d) == b * s + (b * p) * d
  {
    assert b * (p * d) == (b * p) * d;
  }

  /** The recombined digits up to k, entry by entry. */
  lemma {:induction false} PartialRecombination(z: seq<Rq>, b: nat, k: nat, n: nat, j: nat, r: nat)
    requires b >= 2 && n <= k && j < |z| && r < D
    ensures LinComb(PowRhos(b, k), Children(z, b, k), |z|, n)[j][r] == Red(DigitSum(Centered(z[j][r]), b, n))
  {
    hide Red, Mul, Add, Times, Digit, DigitSum, Centered;
    var v := Centered(z[j][r]);
    if n == 0 {
      NoDigits(v, b);
    } else {
      PartialRecombination(z, b, k, n - 1, j, r);
      var d := ChildColumn(z[j], b, n - 1);
      ScalarTimes(Red(Pow(b, n - 1)), d);
      DigitSumLast(v, b, n - 1);
      RedMul(Pow(b, n - 1), Digit(v, b, n - 1));
      RedAdd(DigitSum(v, b, n - 1), Pow(b, n - 1) * Digit(v, b, n - 1));
    }
  }

  lemma NoDigits(v: int, b: nat)
    requires b >= 2
    ensures Red(DigitSum(v, b, 0)) == 0
  {
    RedCanonical(0);
  }

  /** A witness within the range of k digits is the b-power combination of its children. */
  lemma ChildrenRecombine(z: seq<Rq>, b: nat, k: nat)
    requires b >= 2 && SmallWitness(z, MaxRep(b, k))
    ensures LinComb(PowRhos(b, k), Children(z, b, k), |z|, k) == z
  {
    hide LinComb;
    var whole := LinComb(PowRhos(b, k), Children(z, b, k), |z|, k);
    forall j | 0 <= j < |z|
      ensures whole[j] == z[j]
    {
      forall r | 0 <= r < D
        ensures whole[j][r] == z[j][r]
      {
        PartialRecombination(z, b, k, k, j, r);
        EntryRecombines(z, b, k, j, r);
      }
      hide PowRhos, Children, SmallWitness;
    }
  }

  lemma EntryRecombines(z: seq<Rq>, b: nat, k: nat, j: nat, r: nat)
    requires b >= 2 && SmallWitness(z, MaxRep(b, k)) && j < |z| && r < D
    ensures Red(DigitSum(Centered(z[j][r]), b, k)) == z[j][r]
  {
    hide Red, Centered, DigitSum, Rest, MaxRep;
    var v := Centered(z[j][r]);
    assert CenteredVec(z[j])[r] == v;
    assert Bounded(CenteredVec(z[j]), MaxRep(b, k));
    SplitSucceedsExactly(v, b, k);
    SplitKeepsValue(v, b, k);
    RedOfCentered(z[j][r]);
  }

  /** Children are balanced digits again. */
  lemma ChildrenAreSmall(z: seq<Rq>, b: nat, i: nat)
    requires 2 <= b < 0x1_0000_0000
    ensures SmallWitness(Child(z, b, i), b / 2)
  {
    hide Red, Centered, Digit;
    forall j, r | 0 <= j < |z| && 0 <= r < D
      ensures Abs(CenteredVec(Child(z, b, i)[j])[r]) <= b / 2
    {
      var d := Digit(Centered(z[j][r]), b, i);
      DigitsBounded(Centered(z[j][r]), b, i);
      CenteredOfSmall(d);
      assert Child(z, b, i)[j][r] == Red(d);
    }
  }

  // ----- openings of the children and of the combination -----

  /** Sum b^i * claim of child i is the claim of the parent, for any fixed rows. */
  lemma ChildClaimsRecombine(rows: seq<seq<Rq>>, z: seq<Rq>, b: nat, k: nat)
    requires b >= 2 && SameLength(rows, |z|) && SmallWitness(z, MaxRep(b, k))
    ensures LinComb(PowRhos(b, k), Commitments(rows, Children(z, b, k), |z|), |rows|, k) == CommitSpec(rows, z)
  {
    LinCombOfCommitments(rows, PowRhos(b, k), Children(z, b, k), |z|, k);
    ChildrenRecombine(z, b, k);
  }

  /** The K-vector of packed witness blocks: every lane, padding included. */
  function Lift(z: seq<Rq>): (v: seq<K>)
    ensures |v| == |z| * D && IsReal(v)
    ensures forall c :: 0 <= c < |v| ==> v[c] == FromBase(z[c / D][c % D])
  {
    var v := seq(|z| * D, c requires 0 <= c < |z| * D => LiftAt(z, c));
    assert forall c :: 0 <= c < |v| ==> v[c] == LiftAt(z, c);
    v
  }

  function LiftAt(z: seq<Rq>, c: nat): K
    requires c < |z| * D
  {
    FromBase(z[c / D][c % D])
  }

  datatype Decoded = Decoded(v: seq<K>) | BadShape

  /**
   `decode_superneo_coeffs_from_witness_mat` on a matrix by columns: the packed layout keeps every lane,
   the dense one puts the diagonal lanes first and fills the last block with zeros.
   */
  method DecodeCoeffs(rows: nat, z: seq<Vec>, expectedM: nat) returns (r: Decoded)
    requires forall j :: 0 <= j < |z| ==> |z[j]| == rows
    ensures r.Decoded? <==> rows == D && expectedM > 0 && (|z| == BlockCount(expectedM) || |z| == expectedM)
    ensures r.Decoded? && |z| == BlockCount(expectedM) ==> r.v == Lift(z)
    ensures r.Decoded? ==> |r.v| == BlockCount(expectedM) * D
    ensures r.Decoded? && |z| != BlockCount(expectedM) ==>
      forall c :: 0 <= c < |r.v| ==> r.v[c] == if c < expectedM then FromBase(z[c][c % D]) else KZero
  {
    if rows != D || expectedM == 0 || (|z| != BlockCount(expectedM) && |z| != expectedM) {
      return BadShape;
    }
    var n := BlockCount(expectedM) * D;
    var v: seq<K> := seq(n, c => KZero);
    if |z| == BlockCount(expectedM) {
      for c := 0 to n
        invariant |v| == n && forall k :: 0 <= k < c ==> v[k] == FromBase(z[k / D][k % D])
      {
        v := v[c := FromBase(z[c / D][c % D])];
      }
      assert v == Lift(z);
    } else {
      for c := 0 to expectedM
        invariant |v| == n && forall k :: 0 <= k < n ==> v[k] == if k < c then FromBase(z[k][k % D]) else KZero
      {
        v := v[c := FromBase(z[c][c % D])];
      }
    }
    r := Decoded(v);
  }

  lemma LiftedBlocks(z: seq<Rq>)
    ensures BlockCount(|Lift(z)|) == |z|
    ensures BlocksOfPart(Lift(z), false) == z
  {
    var v := Lift(z);
    ExactBlocks(|z|);
    forall b | 0 <= b < |z|
      ensures BlocksOfPart(v, false)[b] == z[b]
    {
      ChunkFits(|z|, b);
      forall i | 0 <= i < D
        ensures BlocksOfPart(v, false)[b][i] == z[b][i]
      {
        assert v[b * D + i] == LiftAt(z, b * D + i);
      }
    }
  }

  lemma ExactBlocks(n: nat)
    ensures BlockCount(n * D) == n
  {}

  /** The opening of one matrix at chi: real and imaginary ring coefficients. */
  function Opening(mat: CcsMatrix, chi: seq<K>, n: nat, z: seq<Rq>): (v: seq<Rq>)
    requires mat.Valid() && n <= |chi| && |z| == BlockCount(mat.Cols())
    ensures |v| == 2
  {
    LiftedBlocks(z);
    var value := RingMle(mat, Lift(z), chi, n);
    [value.re, value.im]
  }

  lemma OpeningIsLinear(mat: CcsMatrix, chi: seq<K>, n: nat, z: seq<Rq>)
    requires mat.Valid() && n <= |chi| && |z| == BlockCount(mat.Cols())
    ensures Opening(mat, chi, n, z) == CommitSpec(OpeningRows(mat, chi, n), z)
  {
    LiftedBlocks(z);
    hide RingMle, CommitSpec, Lift, BlocksOfPart, OpeningRows;
    OpeningIsCommitment(mat, Lift(z), chi, n);
  }

  /** Folding preserves ring openings: the opening of the combination is the combination of the openings. */
  lemma OpeningsFold(mat: CcsMatrix, chi: seq<K>, n: nat, rhos: seq<Rq>, zs: seq<seq<Rq>>, k: nat)
    requires mat.Valid() && n <= |chi| && SameLength(zs, BlockCount(mat.Cols())) && k <= |rhos| && k <= |zs|
    ensures var m := BlockCount(mat.Cols());
            Opening(mat, chi, n, LinComb(rhos, zs, m, k))
            == LinComb(rhos, Commitments(OpeningRows(mat, chi, n), zs, m), 2, k)
    ensures forall i :: 0 <= i < |zs| ==>
      Opening(mat, chi, n, zs[i]) == Commitments(OpeningRows(mat, chi, n), zs, BlockCount(mat.Cols()))[i]
  {
    hide Opening, CommitSpec, OpeningRows, LinComb;
    var m, rows := BlockCount(mat.Cols()), OpeningRows(mat, chi, n);
    OpeningIsLinear(mat, chi, n, LinComb(rhos, zs, m, k));
    LinCombOfCommitments(rows, rhos, zs, m, k);
    forall i | 0 <= i < |zs|
      ensures Opening(mat, chi, n, zs[i]) == Commitments(rows, zs, m)[i]
    {
      OpeningIsLinear(mat, chi, n, zs[i]);
    }
  }

  /** The b-power combination of the children's openings is the opening of the parent. */
  lemma ChildOpeningsRecombine(mat: CcsMatrix, chi: seq<K>, n: nat, z: seq<Rq>, b: nat, k: nat)
    requires mat.Valid() && n <= |chi| && |z| == BlockCount(mat.Cols())
    requires b >= 2 && SmallWitness(z, MaxRep(b, k))
    ensures LinComb(PowRhos(b, k), Commitments(OpeningRows(mat, chi, n), Children(z, b, k), |z|), 2, k)
         == Opening(mat, chi, n, z)
  {
    hide Opening, CommitSpec, OpeningRows, LinComb;
    OpeningIsLinear(mat, chi, n, z);
    ChildClaimsRecombine(OpeningRows(mat, chi, n), z, b, k);
  }

  // ----- matrices in place -----

  function ColumnsOf(a: array2<Fq>): (c: seq<Rq>)
    requires a.Length0 == D
    reads a
    ensures |c| == a.Length1
  {
    seq(a.Length1, j requires 0 <= j < a.Length1 reads a => ColumnOf(a, j))
  }

  /** The matrix is rot(rho). */
  ghost predicate IsRotation(a: array2<Fq>, rho: Rq)
    reads a
  {
    a.Length0 == a.Length1 == D && forall r, j :: 0 <= r < D && 0 <= j < D ==> a[r, j] == ShiftN(j, rho)[r]
  }

  /** `left_mul_acc` with a rotation matrix: acc += rho * a, column by column. */
  method LeftMulAcc(acc: array2<Fq>, rho: array2<Fq>, a: array2<Fq>, ghost e: Rq)
    requires acc.Length0 == a.Length0 == D && acc.Length1 == a.Length1 && acc != rho && acc != a
    requires IsRotation(rho, e)
    modifies acc
    ensures ColumnsOf(acc) == SPlus(old(ColumnsOf(acc)), SScale(e, ColumnsOf(a)))
  {
    hide Times, ShiftN, Mul;
    var m := acc.Length1;
    for r := 0 to D
      invariant IsRotation(rho, e)
      invariant forall i, c :: 0 <= i < D && 0 <= c < m ==>
        acc[i, c] == if i < r then Add(old(acc[i, c]), Times(e, ColumnOf(a, c))[i]) else old(acc[i, c])
    {
      LeftMulRow(acc, rho, a, e, r);
    }
    forall c | 0 <= c < m
      ensures ColumnsOf(acc)[c] == Plus(old(ColumnsOf(acc)[c]), Times(e, ColumnOf(a, c)))
    {}
  }

  method LeftMulRow(acc: array2<Fq>, rho: array2<Fq>, a: array2<Fq>, ghost e: Rq, r: nat)
    requires acc.Length0 == a.Length0 == D && acc.Length1 == a.Length1 && acc != rho && acc != a && r < D
    requires IsRotation(rho, e)
    modifies acc
    ensures forall i, c :: 0 <= i < D && 0 <= c < acc.Length1 ==>
      acc[i, c] == if i == r then Add(old(acc[i, c]), Times(e, ColumnOf(a, c))[i]) else old(acc[i, c])
  {
    hide Times, ShiftN, Mul;
    for c := 0 to acc.Length1
      invariant IsRotation(rho, e)
      invariant forall i, d :: 0 <= i < D && 0 <= d < acc.Length1 ==>
        acc[i, d] == if i == r && d < c then Add(old(acc[i, d]), Times(e, ColumnOf(a, d))[i]) else old(acc[i, d])
    {
      var sum := RotDot(rho, a, e, r, c);
      acc[r, c] := Add(acc[r, c], sum);
    }
  }

  method RotDot(rho: array2<Fq>, a: array2<Fq>, ghost e: Rq, r: nat, c: nat) returns (sum: Fq)
    requires a.Length0 == D && IsRotation(rho, e) && r < D && c < a.Length1
    ensures sum == Times(e, ColumnOf(a, c))[r]
  {
    hide Times, ShiftN, Mul;
    sum := 0;
    for k := 0 to D
      invariant sum == Dot(RowOf(Rot(e), r), ColumnOf(a, c), k)
    {
      RotEntry(e, r, k);
      sum := Add(sum, Mul(rho[r, k], a[k, c]));
    }
    RotActsAsTimes(e, ColumnOf(a, c), r);
  }

  lemma RotEntry(e: Rq, r: nat, k: nat)
    requires r < D && k < D
    ensures RowOf(Rot(e), r)[k] == ShiftN(k, e)[r]
  {}

  // ----- row-major order -----

  lemma RowMajorIndex(r: nat, j: nat, m: nat)
    requires r < D && j < m
    ensures r * m + j < D * m && (r * m + j) / m == r && (r * m + j) % m == j
  {
    MulOrder(r + 1, D, m);
    DivisionIsUnique(r * m + j, r, m, j);
  }

  /** The entries of D x m columns in row-major order. */
  function Flat(z: seq<Rq>): (f: Vec)
    ensures |f| == D * |z|
  {
    seq(D * |z|, i requires 0 <= i < D * |z| => FlatAt(z, i))
  }

  function FlatAt(z: seq<Rq>, i: nat): Fq
    requires i < D * |z|
  {
    FlatRow(i, |z|);
    z[i % |z|][i / |z|]
  }

  lemma FlatRow(i: nat, m: nat)
    requires i < D * m
    ensures m > 0 && i / m < D
  {
    var q := i / m;
    assert i == q * m + i % m;
    if q >= D {
      MulOrder(D, q, m);
    }
  }

  function Unflat(f: Vec, m: nat): (z: seq<Rq>)
    requires |f| == D * m
    ensures |z| == m
  {
    seq(m, j requires 0 <= j < m => UnflatColumn(f, m, j))
  }

  function UnflatColumn(f: Vec, m: nat, j: nat): Rq
    requires |f| == D * m && j < m
  {
    seq(D, r requires 0 <= r < D => UnflatAt(f, m, j, r))
  }

  function UnflatAt(f: Vec, m: nat, j: nat, r: nat): Fq
    requires |f| == D * m && j < m && r < D
  {
    RowMajorIndex(r, j, m);
    f[r * m + j]
  }

  /** Entry (r, j) stands at r m + j, and columns are read back from there. */
  lemma RowMajorOrder(z: seq<Rq>, r: nat, j: nat)
    requires r < D && j < |z|
    ensures r * |z| + j < D * |z| && Flat(z)[r * |z| + j] == z[j][r]
    ensures Unflat(Flat(z), |z|)[j][r] == z[j][r]
  {
    RowMajorIndex(r, j, |z|);
    assert Flat(z)[r * |z| + j] == FlatAt(z, r * |z| + j);
  }

  /** The split of the row-major entries is the split of the columns. */
  lemma SplitColumns(z: seq<Rq>, b: nat, i: nat, digits: Vec)
    requires b >= 2 && |digits| == D * |z|
    requires forall x :: 0 <= x < |digits| ==> digits[x] == Red(Digit(Centered(Flat(z)[x]), b, i))
    ensures Unflat(digits, |z|) == Child(z, b, i)
  {
    hide Red, Digit, Centered;
    var m := |z|;
    forall j, r | 0 <= j < m && 0 <= r < D
      ensures Unflat(digits, m)[j][r] == Child(z, b, i)[j][r]
    {
      RowMajorIndex(r, j, m);
      assert Flat(z)[r * m + j] == FlatAt(z, r * m + j);
    }
    forall j | 0 <= j < m
      ensures Unflat(digits, m)[j] == Child(z, b, i)[j]
    {}
  }

  /** The range of the entries is the range of the columns. */
  lemma FlatRange(z: seq<Rq>, bound: nat)
    ensures (forall x :: 0 <= x < |Flat(z)| ==> Abs(Centered(Flat(z)[x])) <= bound) <==> SmallWitness(z, bound)
  {
    hide Centered;
    var m := |z|;
    if forall x :: 0 <= x < |Flat(z)| ==> Abs(Centered(Flat(z)[x])) <= bound {
      forall j, r | 0 <= j < m && 0 <= r < D
        ensures Abs(CenteredVec(z[j])[r]) <= bound
      {
        RowMajorIndex(r, j, m);
        assert Flat(z)[r * m + j] == FlatAt(z, r * m + j);
      }
    }
    if SmallWitness(z, bound) {
      forall x | 0 <= x < |Flat(z)|
        ensures Abs(Centered(Flat(z)[x])) <= bound
      {
        FlatRow(x, m);
        assert Bounded(CenteredVec(z[x % m]), bound);
        assert CenteredVec(z[x % m])[x / m] == Centered(FlatAt(z, x));
      }
    }
  }
}
