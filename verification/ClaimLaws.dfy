/**
 What combined and decomposed claims mean: the rows of a combination are the openings of the combined
 witness, the combination of one claim with 1 is that claim, and an honest split is accepted.
 */
module ClaimLaws {
  import opened Field
  import opened Vectors
  import opened Ring
  import opened ExtField
  import opened KPolynomials
  import opened Ajtai
  import opened Digits
  import opened Norms
  import opened Fold
  import opened TimeOpening
  import opened RlcPublic
  import opened DecPublic
  import opened RingEval
  import Csc
  import R = Rotations
  import SN = SuperNeo

  // ----- the rows of a combination -----

  /** Ring combinations of the real and of the imaginary lanes of the rows, then zeros. */
  ghost predicate IsRingRow(row: seq<K>, rhos: seq<Rq>, rows: seq<seq<K>>, dPad: nat) {
    && |rhos| == |rows| && (forall i :: 0 <= i < |rows| ==> |rows[i]| >= D) && |row| == dPad
    && (forall r :: 0 <= r < D && r < dPad ==> row[r].re == LinComb(rhos, LaneRows(rows, false), 1, |rows|)[0][r])
    && (forall r :: 0 <= r < D && r < dPad ==> row[r].im == LinComb(rhos, LaneRows(rows, true), 1, |rows|)[0][r])
    && forall r :: D <= r < dPad ==> row[r] == KZero
  }

  lemma MixedRowIsRing(rhos: seq<Rq>, rows: seq<seq<K>>, dPad: nat)
    requires |rhos| == |rows| && forall i :: 0 <= i < |rows| ==> |rows[i]| >= D
    ensures IsRingRow(MixedRow(rhos, rows, dPad), rhos, rows, dPad)
  {
    hide RowMixAt, LinComb;
    forall r | 0 <= r < D
      ensures RowMixAt(rhos, rows, r, |rows|) == K(LinComb(rhos, LaneRows(rows, false), 1, |rows|)[0][r],
                                                   LinComb(rhos, LaneRows(rows, true), 1, |rows|)[0][r])
    {
      RowMixIsRing(rhos, rows, r, |rows|);
    }
  }

  /** Row j of a combined claim, for the rows j of its inputs, and its constant term. */
  lemma CombinedRow(rhos: seq<Rq>, inputs: seq<Claim>, mix: Mixer, dPad: nat, claim: Claim, j: nat, rows: seq<seq<K>>)
    requires Shaped(inputs, dPad) && |rhos| == |inputs| && dPad >= D && NcOk(inputs, dPad)
    requires IsCombination(rhos, inputs, mix, dPad, claim) && j < |inputs[0].yRing|
    requires |rows| == |inputs| && forall i :: 0 <= i < |inputs| ==> rows[i] == inputs[i].yRing[j]
    ensures |claim.yRing| == |claim.ct| == |inputs[0].yRing| && IsRingRow(claim.yRing[j], rhos, rows, dPad)
    ensures claim.ct[j] == claim.yRing[j][0]
  {
    assert rows == RowsAt(inputs, j, dPad);
    assert claim.yRing[j] == MixedRow(rhos, rows, dPad);
    hide LinComb, MixedRow, AuxMixed, NcOk;
    MixedRowIsRing(rhos, rows, dPad);
  }

  /** The digit-range row of a combined claim, when there is one. */
  lemma CombinedChannel(rhos: seq<Rq>, inputs: seq<Claim>, mix: Mixer, dPad: nat, claim: Claim, rows: seq<seq<K>>)
    requires Shaped(inputs, dPad) && |rhos| == |inputs| && dPad >= D && NcOk(inputs, dPad)
    requires IsCombination(rhos, inputs, mix, dPad, claim)
    requires |rows| == |inputs| && forall i :: 0 <= i < |inputs| ==> rows[i] == inputs[i].yZcol
    ensures (forall i :: 0 <= i < |inputs| ==> inputs[i].sCol == [] && inputs[i].yZcol == []) ==> claim.yZcol == []
    ensures (exists i :: 0 <= i < |inputs| && inputs[i].yZcol != []) ==> IsRingRow(claim.yZcol, rhos, rows, dPad)
    ensures (exists i :: 0 <= i < |inputs| && inputs[i].yZcol != []) ==> forall i :: 0 <= i < |rows| ==> |rows[i]| == dPad
  {
    hide LinComb, MixedRow, AuxMixed, RowsMixed, CtsMatch, Shaped, IsRingRow;
    assert rows == ZcolRows(inputs);
    if WantsNc(inputs) {
      assert forall i :: 0 <= i < |inputs| ==> NcInput(inputs[i], inputs[0], dPad);
      MixedRowIsRing(rhos, rows, dPad);
    }
  }

  /** The matrix of a combined claim is the ring combination of the matrices of its inputs. */
  lemma CombinedX(rhos: seq<Rq>, inputs: seq<Claim>, mix: Mixer, dPad: nat, claim: Claim, xs: seq<seq<Rq>>)
    requires Shaped(inputs, dPad) && |rhos| == |inputs| && dPad >= D && NcOk(inputs, dPad)
    requires IsCombination(rhos, inputs, mix, dPad, claim)
    requires |xs| == |inputs| && forall i :: 0 <= i < |inputs| ==> xs[i] == inputs[i].x.data
    ensures SameLength(xs, inputs[0].mIn)
    ensures claim.x == XMat(D, inputs[0].mIn, LinComb(rhos, xs, inputs[0].mIn, |inputs|))
  {
    hide LinComb, AuxMixed, RowsMixed, CtsMatch, NcOk, MixedRow;
    forall i | 0 <= i < |inputs|
      ensures xs[i] == Columns(inputs, dPad)[i]
    {
      assert inputs[i].x.Valid() && InputShape(inputs[i], inputs[0], dPad);
    }
    assert xs == Columns(inputs, dPad);
  }

  /** One component of a combination. */
  lemma {:induction false} Component(rhos: seq<Rq>, vs: seq<seq<Rq>>, part: seq<seq<Rq>>, n: nat, c: nat, k: nat)
    requires SameLength(vs, n) && SameLength(part, 1) && c < n && |part| == |vs| && k <= |vs| && k <= |rhos|
    requires forall i :: 0 <= i < |vs| ==> part[i][0] == vs[i][c]
    ensures LinComb(rhos, part, 1, k)[0] == LinComb(rhos, vs, n, k)[c]
  {
    hide Times, Plus;
    if k != 0 {
      Component(rhos, vs, part, n, c, k - 1);
    }
  }

  lemma PaddedLanes(v: seq<Rq>, dPad: nat)
    requires |v| == 2 && dPad >= D
    ensures Lanes(PadRow(v, dPad), false) == v[0] && Lanes(PadRow(v, dPad), true) == v[1]
  {}

  /** Padding before or after the combination is the same. */
  lemma PaddedRowsMix(rhos: seq<Rq>, vs: seq<seq<Rq>>, dPad: nat, row: seq<K>)
    requires SameLength(vs, 2) && dPad >= D && IsRingRow(row, rhos, PadRows(vs, dPad), dPad)
    ensures row == PadRow(LinComb(rhos, vs, 2, |vs|), dPad)
  {
    hide LinComb;
    var rows := PadRows(vs, dPad);
    forall i | 0 <= i < |vs|
      ensures LaneRows(rows, false)[i][0] == vs[i][0] && LaneRows(rows, true)[i][0] == vs[i][1]
    {
      PaddedLanes(vs[i], dPad);
    }
    hide LaneRows;
    Component(rhos, vs, LaneRows(rows, false), 2, 0, |vs|);
    Component(rhos, vs, LaneRows(rows, true), 2, 1, |vs|);
  }

  /** Openings in, opening out: a combined row is the padded opening of the combined witness. */
  lemma CombinedOpening(rhos: seq<Rq>, inputs: seq<Claim>, mix: Mixer, dPad: nat, claim: Claim, j: nat,
                        mat: Csc.CcsMatrix, chi: seq<K>, n: nat, zs: seq<seq<Rq>>)
    requires Shaped(inputs, dPad) && |rhos| == |inputs| && dPad >= D && NcOk(inputs, dPad)
    requires IsCombination(rhos, inputs, mix, dPad, claim) && j < |inputs[0].yRing|
    requires mat.Valid() && n <= |chi| && |zs| == |inputs| && SameLength(zs, SN.BlockCount(mat.Cols()))
    requires forall i :: 0 <= i < |inputs| ==>
      j < |inputs[i].yRing| && inputs[i].yRing[j] == PadRow(Opening(mat, chi, n, zs[i]), dPad)
    ensures |claim.yRing| == |inputs[0].yRing|
    ensures claim.yRing[j] == PadRow(Opening(mat, chi, n, LinComb(rhos, zs, SN.BlockCount(mat.Cols()), |zs|)), dPad)
  {
    hide Opening, LinComb, MixedRow, AuxMixed, NcOk, OpeningRows, CommitSpec, IsRingRow;
    OpeningsFold(mat, chi, n, rhos, zs, |zs|);
    var vs := Commitments(OpeningRows(mat, chi, n), zs, SN.BlockCount(mat.Cols()));
    assert RowsAt(inputs, j, dPad) == PadRows(vs, dPad);
    CombinedRow(rhos, inputs, mix, dPad, claim, j, PadRows(vs, dPad));
    PaddedRowsMix(rhos, vs, dPad, claim.yRing[j]);
  }

  // ----- the combination of one claim with 1 -----

  lemma OneTerm(x: seq<Rq>)
    ensures LinComb([One], [x], |x|, 1) == x
  {
    hide Times, Plus;
    assert LinComb([One], [x], |x|, 0) == SZeros(|x|);
    forall i | 0 <= i < |x|
      ensures LinComb([One], [x], |x|, 1)[i] == x[i]
    {
      TimesOne(x[i]);
      PlusZeros(x[i]);
    }
  }

  /** Combining a single claim with the challenge 1 gives the claim back, rows padded. */
  lemma CombineWithOne(input: Claim, mix: Mixer, dPad: nat, claim: Claim)
    requires Shaped([input], dPad) && dPad >= D && NcOk([input], dPad)
    requires IsCombination([One], [input], mix, dPad, claim)
    ensures claim.x == input.x && claim.aux == input.aux
    ensures claim.r == input.r && claim.sCol == input.sCol && claim.mIn == input.mIn && claim.digest == input.digest
    ensures |claim.yRing| == |input.yRing| && |claim.yZcol| == |input.yZcol|
    ensures forall j, r :: 0 <= j < |input.yRing| && 0 <= r < dPad ==>
      |claim.yRing[j]| == dPad && |input.yRing[j]| >= D
      && claim.yRing[j][r] == if r < D then input.yRing[j][r] else KZero
    ensures forall r :: 0 <= r < |input.yZcol| ==> claim.yZcol[r] == if r < D then input.yZcol[r] else KZero
    ensures claim.c == mix([One], [input.c])
  {
    CombinedX([One], [input], mix, dPad, claim, [input.x.data]);
    OneTerm(input.x.data);
    OneAux(input, mix, dPad, claim);
    CombinedChannel([One], [input], mix, dPad, claim, [input.yZcol]);
    forall j | 0 <= j < |input.yRing|
      ensures |claim.yRing[j]| == dPad && |input.yRing[j]| >= D
      ensures forall r :: 0 <= r < dPad ==> claim.yRing[j][r] == if r < D then input.yRing[j][r] else KZero
    {
      CombinedRow([One], [input], mix, dPad, claim, j, [input.yRing[j]]);
      OneRow(input.yRing[j]);
    }
    if input.yZcol != [] {
      assert [input][0].yZcol != [];
      OneRow(input.yZcol);
    } else {
      assert !WantsNc([input]) || !NcInput([input][0], [input][0], dPad);
    }
    assert Commits([input]) == [input.c];
  }

  lemma OneRow(row: seq<K>)
    requires |row| >= D
    ensures LinComb([One], LaneRows([row], false), 1, 1)[0] == Lanes(row, false)
    ensures LinComb([One], LaneRows([row], true), 1, 1)[0] == Lanes(row, true)
  {
    OneTerm([Lanes(row, false)]);
    OneTerm([Lanes(row, true)]);
    assert LaneRows([row], false) == [[Lanes(row, false)]] && LaneRows([row], true) == [[Lanes(row, true)]];
  }

  lemma OneAux(input: Claim, mix: Mixer, dPad: nat, claim: Claim)
    requires Shaped([input], dPad) && dPad >= D && NcOk([input], dPad)
    requires IsCombination([One], [input], mix, dPad, claim)
    ensures claim.aux == input.aux
  {
    hide KMul, KAdd, RowsMixed, CtsMatch, NcOk, MixedRow, LinComb;
    assert AuxMixed([One], [input], dPad, claim.aux);
    forall j | 0 <= j < |input.aux|
      ensures claim.aux[j] == input.aux[j]
    {
      assert claim.aux[j] == AuxMixAt([One], [input], j, 1);
      assert AuxMixAt([One], [input], j, 0) == KZero;
      assert FromBase(One[0]) == KOne;
      KMulOne(input.aux[j]);
      KAddZero(input.aux[j]);
    }
  }

  /** The auxiliary values combine with the constant terms of the challenges, in order. */
  lemma {:induction false} AuxIsDot(rhos: seq<Rq>, inputs: seq<Claim>, j: nat, heads: Vec, res: Vec, ims: Vec, n: nat)
    requires n <= |rhos| && n <= |inputs| && forall i :: 0 <= i < |inputs| ==> j < |inputs[i].aux|
    requires |heads| == |res| == |ims| == n
    requires forall i :: 0 <= i < n ==> heads[i] == rhos[i][0] && K(res[i], ims[i]) == inputs[i].aux[j]
    ensures AuxMixAt(rhos, inputs, j, n) == K(R.Dot(heads, res, n), R.Dot(heads, ims, n))
  {
    if n != 0 {
      AuxIsDot(rhos, inputs, j, heads[..n - 1], res[..n - 1], ims[..n - 1], n - 1);
      DotPrefix(heads, res, n - 1);
      DotPrefix(heads, ims, n - 1);
      SN.BaseTimes(rhos[n - 1][0], inputs[n - 1].aux[j]);
    }
    hide Mul, Add, KMul;
  }

  lemma {:induction false} DotPrefix(u: Vec, v: Vec, n: nat)
    requires n <= |u| && n <= |v|
    ensures R.Dot(u[..n], v[..n], n) == R.Dot(u, v, n)
    decreases n
  {
    hide Mul, Add;
    if n != 0 {
      DotPrefix(u, v, n - 1);
      DotPrefix(u[..n], v[..n], n - 1);
      assert u[..n][..n - 1] == u[..n - 1] && v[..n][..n - 1] == v[..n - 1];
    }
  }

  // ----- the matrices of a decomposition -----

  lemma {:induction false} PowerColumns(b: nat, children: seq<Claim>, xs: seq<seq<Rq>>, cols: nat, r: nat, c: nat, n: nat)
    requires |xs| == |children| && SameLength(xs, cols) && r < D && c < cols && n <= |xs|
    requires forall i :: 0 <= i < |xs| ==> xs[i] == children[i].x.data
    ensures PowSumF(b, XAcross(children, r, c), n) == LinComb(PowRhos(b, |xs|), xs, cols, n)[c][r]
  {
    hide Times, Red, Mul;
    if n != 0 {
      PowerColumns(b, children, xs, cols, r, c, n - 1);
      ScalarTimes(PowF(b, n - 1), xs[n - 1][c]);
      assert XAcross(children, r, c)[n - 1] == xs[n - 1][c][r];
    }
  }

  /** The matrices recombine exactly if the b-power combination of the children's is the parent's. */
  lemma XRecombinesExactly(b: nat, parent: Claim, children: seq<Claim>, xs: seq<seq<Rq>>)
    requires parent.x.Valid() && parent.x.rows == D
    requires forall i :: 0 <= i < |children| ==> XShape(children[i].x, parent.x.cols)
    requires |xs| == |children| && forall i :: 0 <= i < |xs| ==> xs[i] == children[i].x.data
    ensures SameLength(xs, parent.x.cols)
    ensures XRecombines(b, parent, children)
       <==> LinComb(PowRhos(b, |xs|), xs, parent.x.cols, |xs|) == parent.x.data
  {
    var cols := parent.x.cols;
    assert forall i :: 0 <= i < |xs| ==> |xs[i]| == cols;
    var sum := LinComb(PowRhos(b, |xs|), xs, cols, |xs|);
    forall r, c | 0 <= r < D && 0 <= c < cols
      ensures PowSumF(b, XAcross(children, r, c), |children|) == sum[c][r]
    {
      PowerColumns(b, children, xs, cols, r, c, |xs|);
    }
    hide LinComb, PowSumF, PowRhos, XEntry, XAcross;
    EntriesDecide(parent.x, sum);
  }

  lemma EntriesDecide(x: XMat, sum: seq<Rq>)
    requires x.Valid() && x.rows == D && |sum| == x.cols
    ensures (forall r, c :: 0 <= r < D && 0 <= c < x.cols ==> sum[c][r] == XEntry(x, r, c)) <==> sum == x.data
  {
    if forall r, c :: 0 <= r < D && 0 <= c < x.cols ==> sum[c][r] == XEntry(x, r, c) {
      forall c | 0 <= c < x.cols
        ensures sum[c] == x.data[c]
      {
        assert forall r :: 0 <= r < D ==> sum[c][r] == XEntry(x, r, c) == x.data[c][r];
      }
    }
  }

  /**
   What acceptance guarantees: one point, and the matrices, all rows, scalars and auxiliary values of
   the parent are the sums of b^i times those of child i, as is its commitment.
   */
  lemma AcceptedMeans(s: Width, parent: Claim, children: seq<Claim>, b: nat, combine: Combiner, ellD: nat,
                      xs: seq<seq<Rq>>, cs: seq<Commitment>)
    requires WellFormedClaims(parent, children) && DecAccepted(s, parent, children, b, combine, ellD)
    requires |xs| == |cs| == |children|
    requires forall i :: 0 <= i < |children| ==> xs[i] == children[i].x.data && cs[i] == children[i].c
    ensures children != [] && forall i :: 0 <= i < |children| ==>
      children[i].r == parent.r && children[i].mIn == parent.mIn && |children[i].yRing| == |parent.yRing|
    ensures SameLength(xs, parent.mIn) && LinComb(PowRhos(b, |xs|), xs, parent.mIn, |xs|) == parent.x.data
    ensures forall j, t, v: seq<K> :: 0 <= j < |parent.yRing| && 0 <= t < |parent.yRing[j]| && |v| == |children| ==>
      (forall i :: 0 <= i < |v| ==> t < |children[i].yRing[j]| && v[i] == children[i].yRing[j][t]) ==>
      PowSum(b, v, |v|) == parent.yRing[j][t]
    ensures forall j, v: seq<K> :: 0 <= j < |parent.ct| && |v| == |children| ==>
      (forall i :: 0 <= i < |v| ==> j < |children[i].ct| && v[i] == children[i].ct[j]) ==>
      PowSum(b, v, |v|) == parent.ct[j]
    ensures forall j, v: seq<K> :: 0 <= j < |parent.aux| && |v| == |children| ==>
      (forall i :: 0 <= i < |v| ==> j < |children[i].aux| && v[i] == children[i].aux[j]) ==>
      PowSum(b, v, |v|) == parent.aux[j]
    ensures combine(cs, b) == parent.c
  {
    hide LinComb, PowSum, PowRhos, XRecombines, CtOk, Pow2Nat;
    assert cs == Commits(children);
    ShapesGive(s, parent, children);
    XRecombinesExactly(b, parent, children, xs);
    forall j, t, v: seq<K> | 0 <= j < |parent.yRing| && 0 <= t < |parent.yRing[j]| && |v| == |children|
      && forall i :: 0 <= i < |v| ==> t < |children[i].yRing[j]| && v[i] == children[i].yRing[j][t]
      ensures PowSum(b, v, |v|) == parent.yRing[j][t]
    {
      RecombinesAt(b, YRows(children, j), parent.yRing[j], t, v);
    }
    forall j, v: seq<K> | 0 <= j < |parent.ct| && |v| == |children|
      && forall i :: 0 <= i < |v| ==> j < |children[i].ct| && v[i] == children[i].ct[j]
      ensures PowSum(b, v, |v|) == parent.ct[j]
    {
      RecombinesAt(b, CtRows(children), parent.ct, j, v);
    }
    forall j, v: seq<K> | 0 <= j < |parent.aux| && |v| == |children|
      && forall i :: 0 <= i < |v| ==> j < |children[i].aux| && v[i] == children[i].aux[j]
      ensures PowSum(b, v, |v|) == parent.aux[j]
    {
      RecombinesAt(b, AuxRows(children), parent.aux, j, v);
    }
  }

  lemma RecombinesAt(b: nat, rows: seq<seq<K>>, target: seq<K>, t: nat, v: seq<K>)
    requires Recombines(b, rows, target) && t < |target| && |v| == |rows|
    requires forall i :: 0 <= i < |v| ==> t < |rows[i]| && v[i] == rows[i][t]
    ensures PowSum(b, v, |v|) == target[t]
  {
    hide PowSum;
    assert v == Across(rows, t);
  }

  /** The sums over the powers of the base, part by part. */
  lemma {:induction false} PowSumIsDot(b: nat, pows: Vec, x: seq<K>, res: Vec, ims: Vec, n: nat)
    requires n <= |x| && n <= |pows| && n <= |res| && n <= |ims|
    requires forall i :: 0 <= i < n ==> pows[i] == Red(Pow(b, i)) && x[i] == K(res[i], ims[i])
    ensures PowSum(b, x, n) == K(R.Dot(pows, res, n), R.Dot(pows, ims, n))
  {
    if n != 0 {
      PowSumIsDot(b, pows, x, res, ims, n - 1);
      SN.BaseTimes(pows[n - 1], x[n - 1]);
    }
    hide Mul, Add, KMul, Red;
  }

  // ----- honest decompositions -----

  /** What the claims of a run state: one point, openings of some matrices, keys, and the public columns. */
  datatype Setting = Setting(mats: seq<Csc.CcsMatrix>, chi: seq<K>, n: nat, r: seq<K>, keys: seq<seq<Rq>>, m: nat, mIn: nat) {
    ghost predicate Valid() {
      && n <= |chi| && mIn <= m && SameLength(keys, m)
      && forall j :: 0 <= j < |mats| ==> mats[j].Valid() && SN.BlockCount(mats[j].Cols()) == m
    }
  }

  /** The claim of a witness, without digit-range channel. */
  ghost predicate HonestClaim(e: Setting, c: Claim, z: seq<Rq>, dPad: nat)
    requires e.Valid() && |z| == e.m
  {
    && c.r == e.r && c.mIn == e.mIn && c.x == XMat(D, e.mIn, z[..e.mIn])
    && |c.yRing| == |c.ct| == |e.mats| && c.aux == [] && c.sCol == [] && c.yZcol == []
    && (forall j :: 0 <= j < |e.mats| ==> c.yRing[j] == PadRow(Opening(e.mats[j], e.chi, e.n, z), dPad))
    && (forall j :: 0 <= j < |e.mats| ==> c.ct[j] == CtOfRow(c.yRing[j]))
    && c.c == CommitSpec(e.keys, z)
  }

  lemma {:induction false} FirstColumns(rhos: seq<Rq>, zs: seq<seq<Rq>>, xs: seq<seq<Rq>>, m: nat, mIn: nat, k: nat)
    requires SameLength(zs, m) && mIn <= m && |xs| == |zs| && k <= |zs| && k <= |rhos|
    requires forall i :: 0 <= i < |xs| ==> xs[i] == zs[i][..mIn]
    ensures SameLength(xs, mIn) && LinComb(rhos, xs, mIn, k) == LinComb(rhos, zs, m, k)[..mIn]
  {
    hide Times, Plus;
    if k != 0 {
      FirstColumns(rhos, zs, xs, m, mIn, k - 1);
    }
  }

  /** The matrices of an honest split recombine. */
  lemma HonestX(e: Setting, parent: Claim, children: seq<Claim>, z: seq<Rq>, b: nat, dPad: nat)
    requires e.Valid() && |z| == e.m && b >= 2 && SmallWitness(z, MaxRep(b, |children|))
    requires HonestClaim(e, parent, z, dPad)
    requires forall i :: 0 <= i < |children| ==> HonestClaim(e, children[i], Child(z, b, i), dPad)
    ensures forall i :: 0 <= i < |children| ==> XShape(children[i].x, parent.x.cols)
    ensures parent.x.Valid() && parent.x.rows == D && XRecombines(b, parent, children)
  {
    hide Opening, CommitSpec, LinComb, XRecombines, SmallWitness, Child;
    var k := |children|;
    var xs := seq(k, i requires 0 <= i < k => Child(z, b, i)[..e.mIn]);
    ChildrenRecombine(z, b, k);
    FirstColumns(PowRhos(b, k), Children(z, b, k), xs, e.m, e.mIn, k);
    XRecombinesExactly(b, parent, children, xs);
  }

  /** Row j of an honest split recombines, and so does its constant term. */
  lemma HonestRow(e: Setting, parent: Claim, children: seq<Claim>, z: seq<Rq>, b: nat, dPad: nat, j: nat)
    requires e.Valid() && |z| == e.m && b >= 2 && SmallWitness(z, MaxRep(b, |children|)) && dPad > 0
    requires HonestClaim(e, parent, z, dPad) && j < |e.mats|
    requires forall i :: 0 <= i < |children| ==> HonestClaim(e, children[i], Child(z, b, i), dPad)
    ensures forall i :: 0 <= i < |children| ==> |children[i].yRing| == |children[i].ct| == |e.mats|
    ensures Recombines(b, YRows(children, j), parent.yRing[j])
    ensures PowSum(b, Across(CtRows(children), j), |children|) == parent.ct[j]
  {
    hide Opening, CommitSpec, SmallWitness, Child, PowSum, OpeningRows;
    var k, mat := |children|, e.mats[j];
    var vs := Commitments(OpeningRows(mat, e.chi, e.n), Children(z, b, k), |z|);
    HonestOpeningsRecombine(mat, e.chi, e.n, z, b, k, dPad);
    forall i | 0 <= i < k
      ensures YRows(children, j)[i] == PadRow(vs[i], dPad)
    {
      assert HonestClaim(e, children[i], Child(z, b, i), dPad);
      OpeningIsLinear(mat, e.chi, e.n, Child(z, b, i));
    }
    assert YRows(children, j) == PadRows(vs, dPad);
    assert Across(CtRows(children), j) == Across(YRows(children, j), 0);
  }

  /**
   `verify_dec_public` accepts every honest split: the claims of a witness in range and of its digits,
   whenever commitments are combined by the powers of the base.
   */
  lemma HonestSplitAccepted(e: Setting, s: Width, parent: Claim, children: seq<Claim>, z: seq<Rq>, b: nat,
                            combine: Combiner, ellD: nat)
    requires e.Valid() && |z| == e.m && b >= 2 && children != [] && SmallWitness(z, MaxRep(b, |children|))
    requires 0 < s.m && e.mIn <= s.m && s.t <= |e.mats| && ellD < 64
    requires HonestClaim(e, parent, z, Pow2Nat(ellD))
    requires forall i :: 0 <= i < |children| ==> HonestClaim(e, children[i], Child(z, b, i), Pow2Nat(ellD))
    requires combine(Commits(children), b)
          == LinComb(PowRhos(b, |children|), Commitments(e.keys, Children(z, b, |children|), e.m), |e.keys|, |children|)
    ensures WellFormedClaims(parent, children) && DecAccepted(s, parent, children, b, combine, ellD)
  {
    var dPad, k := Pow2Nat(ellD), |children|;
    hide Opening, CommitSpec, LinComb, XRecombines, SmallWitness, Child, PowSum, Recombines, Pow2Nat;
    HonestX(e, parent, children, z, b, dPad);
    forall j | 0 <= j < |e.mats|
      ensures Recombines(b, YRows(children, j), parent.yRing[j])
      ensures PowSum(b, Across(CtRows(children), j), k) == parent.ct[j]
    {
      HonestRow(e, parent, children, z, b, dPad, j);
    }
    HonestScalars(e, parent, children, b);
    ChildClaimsRecombine(e.keys, z, b, k);
  }

  lemma HonestScalars(e: Setting, parent: Claim, children: seq<Claim>, b: nat)
    requires |parent.ct| == |e.mats| && parent.aux == []
    requires forall i :: 0 <= i < |children| ==> |children[i].ct| == |e.mats| && children[i].aux == []
    requires forall j :: 0 <= j < |e.mats| ==> PowSum(b, Across(CtRows(children), j), |children|) == parent.ct[j]
    ensures Recombines(b, CtRows(children), parent.ct) && Recombines(b, AuxRows(children), parent.aux)
  {
    hide PowSum;
  }

  // ----- a whole folding step -----

  /** The combination of honest claims is the honest claim of the combined witness. */
  lemma HonestCombination(e: Setting, rhos: seq<Rq>, inputs: seq<Claim>, mix: Mixer, dPad: nat, claim: Claim,
                          zs: seq<seq<Rq>>)
    requires e.Valid() && |zs| == |inputs| && SameLength(zs, e.m)
    requires forall i :: 0 <= i < |inputs| ==> HonestClaim(e, inputs[i], zs[i], dPad)
    requires Shaped(inputs, dPad) && |rhos| == |inputs| && dPad >= D && NcOk(inputs, dPad)
    requires IsCombination(rhos, inputs, mix, dPad, claim)
    requires mix(rhos, Commits(inputs)) == LinComb(rhos, Commitments(e.keys, zs, e.m), |e.keys|, |zs|)
    ensures HonestClaim(e, claim, LinComb(rhos, zs, e.m, |zs|), dPad)
  {
    assert HonestClaim(e, inputs[0], zs[0], dPad);
    hide Opening, CommitSpec, LinComb, Shaped, RowsMixed, MixedRow;
    var xs := seq(|zs|, i requires 0 <= i < |zs| => zs[i][..e.mIn]);
    CombinedX(rhos, inputs, mix, dPad, claim, xs);
    FirstColumns(rhos, zs, xs, e.m, e.mIn, |zs|);
    LinCombOfCommitments(e.keys, rhos, zs, e.m, |zs|);
    HonestRows(e, rhos, inputs, mix, dPad, claim, zs);
  }

  lemma HonestRows(e: Setting, rhos: seq<Rq>, inputs: seq<Claim>, mix: Mixer, dPad: nat, claim: Claim,
                   zs: seq<seq<Rq>>)
    requires e.Valid() && |zs| == |inputs| && SameLength(zs, e.m)
    requires forall i :: 0 <= i < |inputs| ==> HonestClaim(e, inputs[i], zs[i], dPad)
    requires Shaped(inputs, dPad) && |rhos| == |inputs| && dPad >= D && NcOk(inputs, dPad)
    requires IsCombination(rhos, inputs, mix, dPad, claim)
    ensures |claim.yRing| == |claim.ct| == |e.mats|
    ensures forall j :: 0 <= j < |e.mats| ==>
      claim.yRing[j] == PadRow(Opening(e.mats[j], e.chi, e.n, LinComb(rhos, zs, e.m, |zs|)), dPad)
      && claim.ct[j] == CtOfRow(claim.yRing[j])
  {
    assert HonestClaim(e, inputs[0], zs[0], dPad);
    assert |claim.ct| == |claim.yRing| == |inputs[0].yRing|;
    hide Opening, CommitSpec, LinComb, Shaped, MixedRow, NcOk, AuxMixed, RowsMixed;
    forall j | 0 <= j < |e.mats|
      ensures claim.yRing[j] == PadRow(Opening(e.mats[j], e.chi, e.n, LinComb(rhos, zs, e.m, |zs|)), dPad)
    {
      CombinedOpening(rhos, inputs, mix, dPad, claim, j, e.mats[j], e.chi, e.n, zs);
    }
  }

  /**
   A folding step is complete: the honest claims of any witnesses combine to a parent whose honest
   split `verify_dec_public` accepts, as long as the combined witness is in range.
   */
  lemma FoldingStepAccepted(e: Setting, s: Width, rhos: seq<Rq>, inputs: seq<Claim>, zs: seq<seq<Rq>>, mix: Mixer,
                            parent: Claim, children: seq<Claim>, b: nat, combine: Combiner, ellD: nat)
    requires e.Valid() && |zs| == |inputs| && SameLength(zs, e.m) && b >= 2 && children != []
    requires 0 < s.m && e.mIn <= s.m && s.t <= |e.mats| && ellD < 64 && Pow2Nat(ellD) >= D
    requires forall i :: 0 <= i < |inputs| ==> HonestClaim(e, inputs[i], zs[i], Pow2Nat(ellD))
    requires Shaped(inputs, Pow2Nat(ellD)) && |rhos| == |inputs| && NcOk(inputs, Pow2Nat(ellD))
    requires IsCombination(rhos, inputs, mix, Pow2Nat(ellD), parent)
    requires mix(rhos, Commits(inputs)) == LinComb(rhos, Commitments(e.keys, zs, e.m), |e.keys|, |zs|)
    requires SmallWitness(LinComb(rhos, zs, e.m, |zs|), MaxRep(b, |children|))
    requires forall i :: 0 <= i < |children| ==>
      HonestClaim(e, children[i], Child(LinComb(rhos, zs, e.m, |zs|), b, i), Pow2Nat(ellD))
    requires combine(Commits(children), b)
          == LinComb(PowRhos(b, |children|),
                     Commitments(e.keys, Children(LinComb(rhos, zs, e.m, |zs|), b, |children|), e.m),
                     |e.keys|, |children|)
    ensures WellFormedClaims(parent, children) && DecAccepted(s, parent, children, b, combine, ellD)
  {
    hide *;
    HonestCombination(e, rhos, inputs, mix, Pow2Nat(ellD), parent, zs);
    HonestSplitAccepted(e, s, parent, children, LinComb(rhos, zs, e.m, |zs|), b, combine, ellD);
  }
}
