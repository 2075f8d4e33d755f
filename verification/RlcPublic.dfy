/** The public random linear combination of claims, and the check that avoids building it. */
module RlcPublic {
  import opened Field
  import opened Vectors
  import opened Ring
  import opened Rotations
  import opened ExtField
  import opened KPolynomials
  import opened Ajtai
  import opened TimeOpening
  import opened Fold
  import opened ChunkFold
  import SN = SuperNeo

  // ----- claims -----

  /** A matrix by columns. */
  datatype XMat = XMat(rows: nat, cols: nat, data: seq<Vec>) {
    ghost predicate Valid() { |data| == cols && forall j :: 0 <= j < cols ==> |data[j]| == rows }
  }

  datatype Claim = Claim(coords: seq<Fq>, uOffset: nat, uLen: nat, c: Commitment, x: XMat, r: seq<K>, sCol: seq<K>,
                         yRing: seq<seq<K>>, ct: seq<K>, aux: seq<K>, yZcol: seq<K>, mIn: nat, digest: int)

  /** What the combination needs to know of the structure: width and number of matrices. */
  datatype Width = Width(m: nat, t: nat)

  /** The commitment mixer, as an arbitrary function. */
  type Mixer = (seq<Rq>, seq<Commitment>) -> Commitment

  // ----- specification -----

  /** The first n lanes of a row under one rotation. */
  function RotTerm(rho: Rq, row: seq<K>, r: nat, n: nat): K
    requires r < D && n <= |row|
  {
    if n == 0 then KZero
    else KAdd(RotTerm(rho, row, r, n - 1), KMul(FromBase(ShiftN(n - 1, rho)[r]), row[n - 1]))
  }

  /** Lane r of the combination of the first n rows. */
  function RowMixAt(rhos: seq<Rq>, rows: seq<seq<K>>, r: nat, n: nat): K
    requires r < D && n <= |rhos| && n <= |rows| && forall i :: 0 <= i < |rows| ==> |rows[i]| >= D
  {
    if n == 0 then KZero else KAdd(RowMixAt(rhos, rows, r, n - 1), RotTerm(rhos[n - 1], rows[n - 1], r, D))
  }

  /** The combined row, padded with zeros. */
  function MixedRow(rhos: seq<Rq>, rows: seq<seq<K>>, dPad: nat): (s: seq<K>)
    requires |rhos| == |rows| && forall i :: 0 <= i < |rows| ==> |rows[i]| >= D
    ensures |s| == dPad
  {
    seq(dPad, r requires 0 <= r => if r < D then RowMixAt(rhos, rows, r, |rows|) else KZero)
  }

  function AuxMixAt(rhos: seq<Rq>, inputs: seq<Claim>, j: nat, n: nat): K
    requires n <= |rhos| && n <= |inputs| && forall i :: 0 <= i < |inputs| ==> j < |inputs[i].aux|
  {
    if n == 0 then KZero else KAdd(AuxMixAt(rhos, inputs, j, n - 1), KMul(FromBase(rhos[n - 1][0]), inputs[n - 1].aux[j]))
  }

  function CtOfRow(row: seq<K>): K { if row == [] then KZero else row[0] }

  /** Nonempty inputs of one shape. */
  ghost predicate Shaped(inputs: seq<Claim>, dPad: nat) {
    && inputs != []
    && forall i :: 0 <= i < |inputs| ==> inputs[i].x.Valid() && InputShape(inputs[i], inputs[0], dPad)
  }

  function RowsAt(inputs: seq<Claim>, j: nat, ghost dPad: nat): (rows: seq<seq<K>>)
    requires Shaped(inputs, dPad) && j < |inputs[0].yRing|
    ensures |rows| == |inputs| && forall i :: 0 <= i < |rows| ==> rows[i] == inputs[i].yRing[j] && |rows[i]| >= D
  {
    seq(|inputs|, i requires 0 <= i < |inputs| => inputs[i].yRing[j])
  }

  function ZcolRows(inputs: seq<Claim>): (rows: seq<seq<K>>)
    ensures |rows| == |inputs| && forall i :: 0 <= i < |rows| ==> rows[i] == inputs[i].yZcol
  {
    seq(|inputs|, i requires 0 <= i < |inputs| => inputs[i].yZcol)
  }

  function ColumnsOfX(x: XMat): (c: seq<Rq>)
    requires x.Valid() && x.rows == D
    ensures |c| == x.cols && forall j :: 0 <= j < x.cols ==> c[j] == x.data[j]
  {
    seq(x.cols, j requires 0 <= j < x.cols => x.data[j])
  }

  function Columns(inputs: seq<Claim>, ghost dPad: nat): (xs: seq<seq<Rq>>)
    requires Shaped(inputs, dPad)
    ensures |xs| == |inputs| && SameLength(xs, inputs[0].mIn)
  {
    seq(|inputs|, i requires 0 <= i < |inputs| => ColumnsOfX(inputs[i].x))
  }

  function Commits(inputs: seq<Claim>): (cs: seq<Commitment>)
    ensures |cs| == |inputs| && forall i :: 0 <= i < |cs| ==> cs[i] == inputs[i].c
  {
    seq(|inputs|, i requires 0 <= i < |inputs| => inputs[i].c)
  }

  /** `validate_ct_constant_term`: the first t scalars of a claim are the constant terms of its rows. */
  ghost predicate CtOk(s: Width, c: Claim) {
    |c.ct| >= s.t && |c.yRing| >= s.t && forall j :: 0 <= j < s.t ==> c.ct[j] == CtOfRow(c.yRing[j])
  }

  /** What a run can skip on claims that are verified already: width, constant terms, one point for all. */
  ghost predicate ClaimsOk(s: Width, inputs: seq<Claim>) {
    forall i :: 0 <= i < |inputs| ==> inputs[i].mIn <= s.m && CtOk(s, inputs[i]) && inputs[i].r == inputs[0].r
  }

  /** Shape of one input against the first one. */
  ghost predicate InputShape(inst: Claim, first: Claim, dPad: nat) {
    && inst.mIn == first.mIn && inst.x.rows == D && inst.x.cols == first.mIn && |inst.yRing| == |first.yRing|
    && |inst.aux| == |first.aux| && forall j :: 0 <= j < |inst.yRing| ==> D <= |inst.yRing[j]| <= dPad
  }

  /** The checks both functions share; `validate` is false on verified inputs. */
  ghost predicate InputsOk(s: Width, rhos: seq<Rq>, inputs: seq<Claim>, validate: bool, ellD: nat) {
    && s.m > 0 && inputs != [] && |rhos| == |inputs|
    && (validate ==> ClaimsOk(s, inputs)) && ellD < 64 && |inputs[0].yRing| >= s.t
    && forall i :: 0 <= i < |inputs| ==> InputShape(inputs[i], inputs[0], Pow2Nat(ellD))
  }

  /** Some input carries the digit-range channel. */
  ghost predicate WantsNc(inputs: seq<Claim>) {
    exists i :: 0 <= i < |inputs| && !(inputs[i].sCol == [] && inputs[i].yZcol == [])
  }

  /** The channel is absent everywhere or complete and consistent everywhere. */
  ghost predicate NcOk(inputs: seq<Claim>, dPad: nat) {
    WantsNc(inputs) ==> forall i :: 0 <= i < |inputs| ==> NcInput(inputs[i], inputs[0], dPad)
  }

  ghost predicate NcInput(inst: Claim, first: Claim, dPad: nat) {
    inst.sCol != [] && inst.yZcol != [] && inst.sCol == first.sCol && |inst.yZcol| == dPad
  }

  /** Claims of a structure with at least one matrix, with well-formed matrices. */
  ghost predicate WellFormed(s: Width, inputs: seq<Claim>) {
    s.t > 0 && forall i :: 0 <= i < |inputs| ==> inputs[i].x.Valid()
  }

  /** Field by field: `claim` is the combination. */
  ghost predicate IsCombination(rhos: seq<Rq>, inputs: seq<Claim>, mix: Mixer, dPad: nat, claim: Claim)
    requires Shaped(inputs, dPad) && |rhos| == |inputs| && dPad >= D && NcOk(inputs, dPad)
  {
    var first := inputs[0];
    && claim.coords == [] && claim.uOffset == 0 && claim.uLen == 0 && claim.mIn == first.mIn
    && claim.digest == first.digest && claim.r == first.r && claim.sCol == first.sCol
    && claim.x == XMat(D, first.mIn, LinComb(rhos, Columns(inputs, dPad), first.mIn, |inputs|))
    && RowsMixed(rhos, inputs, dPad, claim.yRing, |first.yRing|) && |claim.yRing| == |first.yRing|
    && CtsMatch(claim.yRing, claim.ct)
    && AuxMixed(rhos, inputs, dPad, claim.aux)
    && claim.yZcol == (if WantsNc(inputs) then MixedRow(rhos, ZcolRows(inputs), dPad) else [])
    && claim.c == mix(rhos, Commits(inputs))
  }

  ghost predicate RowsMixed(rhos: seq<Rq>, inputs: seq<Claim>, dPad: nat, rows: seq<seq<K>>, n: nat)
    requires Shaped(inputs, dPad) && |rhos| == |inputs| && n <= |inputs[0].yRing|
  {
    n <= |rows| && forall j :: 0 <= j < n ==> rows[j] == MixedRow(rhos, RowsAt(inputs, j, dPad), dPad)
  }

  ghost predicate CtsMatch(rows: seq<seq<K>>, ct: seq<K>) {
    |ct| == |rows| && forall j :: 0 <= j < |rows| ==> ct[j] == CtOfRow(rows[j])
  }

  ghost predicate AuxMixed(rhos: seq<Rq>, inputs: seq<Claim>, dPad: nat, aux: seq<K>)
    requires Shaped(inputs, dPad) && |rhos| == |inputs|
  {
    |aux| == |inputs[0].aux| && forall j :: 0 <= j < |aux| ==> aux[j] == AuxMixAt(rhos, inputs, j, |inputs|)
  }

  // ----- the row loop -----

  /** The rotation columns applied lane by lane, zero lanes skipped. */
  method MixRow(rhos: seq<Rq>, rows: seq<seq<K>>, dPad: nat) returns (acc: seq<K>)
    requires |rhos| == |rows| && dPad >= D && forall i :: 0 <= i < |rows| ==> |rows[i]| >= D
    ensures acc == MixedRow(rhos, rows, dPad)
  {
    hide RotTerm;
    acc := KZeros(dPad);
    for i := 0 to |rows|
      invariant |acc| == dPad && forall r :: D <= r < dPad ==> acc[r] == KZero
      invariant forall r :: 0 <= r < D ==> acc[r] == RowMixAt(rhos, rows, r, i)
    {
      acc := AddRotated(acc, rhos[i], rows[i], dPad);
    }
  }

  method AddRotated(acc: seq<K>, rho: Rq, row: seq<K>, dPad: nat) returns (out: seq<K>)
    requires |acc| == dPad >= D && |row| >= D
    ensures |out| == dPad && forall r :: D <= r < dPad ==> out[r] == acc[r]
    ensures forall r :: 0 <= r < D ==> out[r] == KAdd(acc[r], RotTerm(rho, row, r, D))
  {
    hide KMul, KAdd, ShiftN;
    out := acc;
    NoLanes(acc, rho, row);
    for k := 0 to D
      invariant |out| == dPad && forall r :: D <= r < dPad ==> out[r] == acc[r]
      invariant forall r :: 0 <= r < D ==> out[r] == KAdd(acc[r], RotTerm(rho, row, r, k))
    {
      LaneStep(acc, rho, row, k);
      if row[k] == KZero {
        continue;
      }
      out := AddLane(out, ShiftN(k, rho), row[k]);
    }
  }

  lemma NoLanes(acc: seq<K>, rho: Rq, row: seq<K>)
    requires |acc| >= D && |row| >= D
    ensures forall r :: 0 <= r < D ==> KAdd(acc[r], RotTerm(rho, row, r, 0)) == acc[r]
  {
    forall r | 0 <= r < D
      ensures KAdd(acc[r], KZero) == acc[r]
    {
      KAddZero(acc[r]);
    }
    hide KAdd;
  }

  lemma LaneStep(acc: seq<K>, rho: Rq, row: seq<K>, k: nat)
    requires |acc| >= D && |row| >= D && k < D
    ensures forall r :: 0 <= r < D ==>
      KAdd(acc[r], RotTerm(rho, row, r, k + 1))
      == KAdd(KAdd(acc[r], RotTerm(rho, row, r, k)), KMul(FromBase(ShiftN(k, rho)[r]), row[k]))
    ensures row[k] == KZero ==> forall r :: 0 <= r < D ==>
      KAdd(acc[r], RotTerm(rho, row, r, k + 1)) == KAdd(acc[r], RotTerm(rho, row, r, k))
  {
    hide KMul, KAdd, ShiftN;
    forall r | 0 <= r < D
      ensures KAdd(acc[r], RotTerm(rho, row, r, k + 1))
           == KAdd(KAdd(acc[r], RotTerm(rho, row, r, k)), KMul(FromBase(ShiftN(k, rho)[r]), row[k]))
      ensures row[k] == KZero ==> KAdd(acc[r], RotTerm(rho, row, r, k + 1)) == KAdd(acc[r], RotTerm(rho, row, r, k))
    {
      var t, x := RotTerm(rho, row, r, k), KMul(FromBase(ShiftN(k, rho)[r]), row[k]);
      KAddAssoc(acc[r], t, x);
      KMulOne(FromBase(ShiftN(k, rho)[r]));
      KAddZero(KAdd(acc[r], t));
    }
  }

  method AddLane(acc: seq<K>, col: Rq, y: K) returns (out: seq<K>)
    requires |acc| >= D
    ensures |out| == |acc| && forall r :: D <= r < |acc| ==> out[r] == acc[r]
    ensures forall r :: 0 <= r < D ==> out[r] == KAdd(acc[r], KMul(FromBase(col[r]), y))
  {
    hide KMul, KAdd;
    out := acc;
    for r := 0 to D
      invariant |out| == |acc|
      invariant forall i :: 0 <= i < |acc| ==> out[i] == if i < r then KAdd(acc[i], KMul(FromBase(col[i]), y)) else acc[i]
    {
      out := out[r := KAdd(out[r], KMul(FromBase(col[r]), y))];
    }
  }

  method MixAux(rhos: seq<Rq>, inputs: seq<Claim>, ghost dPad: nat) returns (aux: seq<K>)
    requires Shaped(inputs, dPad) && |rhos| == |inputs|
    ensures AuxMixed(rhos, inputs, dPad, aux)
  {
    hide KMul, KAdd;
    var n := |inputs[0].aux|;
    aux := KZeros(n);
    for i := 0 to |inputs|
      invariant |aux| == n && forall j :: 0 <= j < n ==> aux[j] == AuxMixAt(rhos, inputs, j, i)
    {
      var before := aux;
      for j := 0 to n
        invariant |aux| == n
        invariant forall k :: 0 <= k < n ==> aux[k] == if k < j then AuxMixAt(rhos, inputs, k, i + 1) else before[k]
      {
        aux := aux[j := KAdd(aux[j], KMul(FromBase(rhos[i][0]), inputs[i].aux[j]))];
      }
    }
  }

  // ----- the shared input checks -----

  method CheckCt(s: Width, c: Claim) returns (ok: bool)
    ensures ok <==> CtOk(s, c)
  {
    if |c.ct| < s.t || |c.yRing| < s.t {
      return false;
    }
    for j := 0 to s.t
      invariant forall k :: 0 <= k < j ==> c.ct[k] == CtOfRow(c.yRing[k])
    {
      if c.ct[j] != CtOfRow(c.yRing[j]) {
        return false;
      }
    }
    ok := true;
  }

  method CheckClaims(s: Width, inputs: seq<Claim>) returns (ok: bool)
    ensures ok <==> ClaimsOk(s, inputs)
  {
    hide CtOk;
    for i := 0 to |inputs|
      invariant forall k :: 0 <= k < i ==> inputs[k].mIn <= s.m
    {
      if inputs[i].mIn > s.m {
        return false;
      }
    }
    for i := 0 to |inputs|
      invariant forall k :: 0 <= k < i ==> CtOk(s, inputs[k])
    {
      var same := CheckCt(s, inputs[i]);
      if !same {
        return false;
      }
    }
    for i := 0 to |inputs|
      invariant forall k :: 0 <= k < i ==> inputs[k].r == inputs[0].r
    {
      if inputs[i].r != inputs[0].r {
        return false;
      }
    }
    ok := true;
  }

  /** All the checks on the inputs, in order; the same ones open both functions. */
  method CheckInputs(s: Width, rhos: seq<Rq>, inputs: seq<Claim>, validate: bool, ellD: nat) returns (ok: bool)
    ensures ok <==> InputsOk(s, rhos, inputs, validate, ellD)
  {
    hide InputShape, Pow2Nat, ClaimsOk;
    if s.m == 0 || inputs == [] || |rhos| != |inputs| {
      return false;
    }
    if validate {
      var valid := CheckClaims(s, inputs);
      if !valid {
        return false;
      }
    }
    if ellD >= 64 || |inputs[0].yRing| < s.t {
      return false;
    }
    for i := 0 to |inputs|
      invariant forall k :: 0 <= k < i ==> InputShape(inputs[k], inputs[0], Pow2Nat(ellD))
    {
      var shape := CheckShape(inputs[i], inputs[0], Pow2Nat(ellD));
      if !shape {
        return false;
      }
    }
    ok := true;
  }

  method CheckShape(inst: Claim, first: Claim, dPad: nat) returns (ok: bool)
    ensures ok <==> InputShape(inst, first, dPad)
  {
    if inst.mIn != first.mIn || inst.x.rows != D || inst.x.cols != first.mIn
       || |inst.yRing| != |first.yRing| || |inst.aux| != |first.aux| {
      return false;
    }
    for j := 0 to |inst.yRing|
      invariant forall k :: 0 <= k < j ==> D <= |inst.yRing[k]| <= dPad
    {
      if |inst.yRing[j]| < D || |inst.yRing[j]| > dPad {
        return false;
      }
    }
    ok := true;
  }

  /** Padded rows exist, so the padded length is at least D. */
  lemma PadCoversRows(s: Width, rhos: seq<Rq>, inputs: seq<Claim>, validate: bool, ellD: nat)
    requires WellFormed(s, inputs) && InputsOk(s, rhos, inputs, validate, ellD)
    ensures Pow2Nat(ellD) >= D && Shaped(inputs, Pow2Nat(ellD)) && |rhos| == |inputs|
  {
    assert InputShape(inputs[0], inputs[0], Pow2Nat(ellD));
    assert |inputs[0].yRing[0]| >= D;
  }

  method WantsChannel(inputs: seq<Claim>) returns (wants: bool)
    ensures wants <==> WantsNc(inputs)
  {
    wants := false;
    for i := 0 to |inputs|
      invariant wants <==> exists k :: 0 <= k < i && !(inputs[k].sCol == [] && inputs[k].yZcol == [])
    {
      if !(inputs[i].sCol == [] && inputs[i].yZcol == []) {
        wants := true;
      }
    }
  }

  // ----- rlc_public -----

  datatype RlcResult = Combined(claim: Claim) | Refused

  /** `rlc_public`. */
  method Combine(s: Width, rhos: seq<Rq>, inputs: seq<Claim>, mix: Mixer, ellD: nat)
    returns (r: RlcResult)
    requires WellFormed(s, inputs)
    ensures r.Combined? <==> InputsOk(s, rhos, inputs, true, ellD) && NcOk(inputs, Pow2Nat(ellD))
    ensures r.Combined? ==> Pow2Nat(ellD) >= D && IsCombination(rhos, inputs, mix, Pow2Nat(ellD), r.claim)
  {
    var ok := CheckInputs(s, rhos, inputs, true, ellD);
    if !ok {
      return Refused;
    }
    PadCoversRows(s, rhos, inputs, true, ellD);
    var dPad: nat := Pow2Nat(ellD);
    hide Pow2Nat, LinComb, MixedRow, NcInput, AuxMixed, RowsMixed, CtsMatch;
    var first := inputs[0];
    var x := MixColumns(rhos, inputs, dPad);
    var yRing := MixRows(rhos, inputs, dPad);
    var yZcol: seq<K> := [];
    var wants := WantsChannel(inputs);
    if wants {
      var complete := CheckChannel(inputs, dPad);
      if !complete {
        return Refused;
      }
      ChannelRows(inputs, dPad);
      yZcol := MixRow(rhos, ZcolRows(inputs), dPad);
    }
    var ct := CtOfRows(yRing);
    var aux := MixAux(rhos, inputs, dPad);
    var claim := Claim([], 0, 0, mix(rhos, Commits(inputs)), XMat(D, first.mIn, x), first.r, first.sCol,
                       yRing, ct, aux, yZcol, first.mIn, first.digest);
    r := Combined(claim);
  }

  lemma ChannelRows(inputs: seq<Claim>, dPad: nat)
    requires dPad >= D && inputs != [] && forall i :: 0 <= i < |inputs| ==> NcInput(inputs[i], inputs[0], dPad)
    ensures forall i :: 0 <= i < |inputs| ==> |ZcolRows(inputs)[i]| >= D
  {}

  method MixColumns(rhos: seq<Rq>, inputs: seq<Claim>, ghost dPad: nat) returns (x: seq<Rq>)
    requires Shaped(inputs, dPad) && |rhos| == |inputs|
    ensures x == LinComb(rhos, Columns(inputs, dPad), inputs[0].mIn, |inputs|)
  {
    hide LinComb, SPlus, SScale, IsRotation, InputShape;
    ghost var xs, m := Columns(inputs, dPad), inputs[0].mIn;
    var acc := FromColumns(SZeros(inputs[0].mIn));
    NoTerms(rhos, xs, m);
    for i := 0 to |inputs|
      invariant fresh(acc) && acc.Length0 == D && acc.Length1 == m && ColumnsOf(acc) == LinComb(rhos, xs, m, i)
    {
      hide ColumnsOf;
      InputColumns(inputs, dPad, i);
      var rho := RotationMatrix(rhos[i]);
      var a := FromColumns(ColumnsOfX(inputs[i].x));
      LeftMulAcc(acc, rho, a, rhos[i]);
      NextTerm(rhos, xs, m, i);
    }
    x := ColumnsOf(acc);
  }

  lemma InputColumns(inputs: seq<Claim>, dPad: nat, i: nat)
    requires Shaped(inputs, dPad) && i < |inputs|
    ensures inputs[i].x.Valid() && inputs[i].x.rows == D && inputs[i].x.cols == inputs[0].mIn
    ensures Columns(inputs, dPad)[i] == ColumnsOfX(inputs[i].x)
  {}

  method MixRows(rhos: seq<Rq>, inputs: seq<Claim>, dPad: nat) returns (rows: seq<seq<K>>)
    requires Shaped(inputs, dPad) && |rhos| == |inputs| && dPad >= D
    ensures |rows| == |inputs[0].yRing| && RowsMixed(rhos, inputs, dPad, rows, |inputs[0].yRing|)
  {
    hide MixedRow;
    rows := [];
    for j := 0 to |inputs[0].yRing|
      invariant |rows| == j && RowsMixed(rhos, inputs, dPad, rows, j)
    {
      var acc := MixRow(rhos, RowsAt(inputs, j, dPad), dPad);
      rows := rows + [acc];
    }
  }

  method CtOfRows(rows: seq<seq<K>>) returns (ct: seq<K>)
    ensures CtsMatch(rows, ct)
  {
    ct := seq(|rows|, j requires 0 <= j < |rows| => CtOfRow(rows[j]));
  }

  method CheckChannel(inputs: seq<Claim>, dPad: nat) returns (ok: bool)
    requires inputs != []
    ensures ok <==> forall i :: 0 <= i < |inputs| ==> NcInput(inputs[i], inputs[0], dPad)
  {
    if inputs[0].sCol == [] || inputs[0].yZcol == [] {
      assert !NcInput(inputs[0], inputs[0], dPad);
      return false;
    }
    for i := 0 to |inputs|
      invariant forall k :: 0 <= k < i ==> NcInput(inputs[k], inputs[0], dPad)
    {
      if inputs[i].sCol == [] || inputs[i].yZcol == [] || inputs[i].sCol != inputs[0].sCol || |inputs[i].yZcol| != dPad {
        assert !NcInput(inputs[i], inputs[0], dPad);
        return false;
      }
    }
    ok := true;
  }

  // ----- rlc_public_matches -----

  datatype MatchResult = Matches | Differs | MatchRefused

  /** `rlc_public_matches_with_perf_impl`: true exactly when the combination is the expected claim. */
  method CombineMatches(s: Width, rhos: seq<Rq>, inputs: seq<Claim>, expected: Claim, validate: bool, mix: Mixer,
                        ellD: nat)
    returns (r: MatchResult)
    requires WellFormed(s, inputs) && expected.x.Valid()
    ensures InputsOk(s, rhos, inputs, validate, ellD) && NcOk(inputs, Pow2Nat(ellD)) ==>
      Pow2Nat(ellD) >= D && (r.Matches? <==> IsCombination(rhos, inputs, mix, Pow2Nat(ellD), expected))
    ensures r.Matches? ==> InputsOk(s, rhos, inputs, validate, ellD) && NcOk(inputs, Pow2Nat(ellD))
    ensures r.MatchRefused? ==> !InputsOk(s, rhos, inputs, validate, ellD) || !NcOk(inputs, Pow2Nat(ellD))
  {
    var ok := CheckInputs(s, rhos, inputs, validate, ellD);
    if !ok {
      return MatchRefused;
    }
    PadCoversRows(s, rhos, inputs, validate, ellD);
    var dPad: nat := Pow2Nat(ellD);
    hide Pow2Nat, LinComb, MixedRow, NcInput, AuxMixed, RowsMixed, CtsMatch;
    var first := inputs[0];
    if expected.coords != [] || expected.uOffset != 0 || expected.uLen != 0 || expected.mIn != first.mIn
       || expected.digest != first.digest || expected.r != first.r || expected.sCol != first.sCol
       || expected.x.rows != D || expected.x.cols != first.mIn || |expected.yRing| != |first.yRing|
       || |expected.ct| != |first.yRing| || |expected.aux| != |first.aux| {
      CtLength(expected);
      AuxLength(rhos, inputs, dPad, expected);
      return Differs;
    }
    var sameX := CheckColumns(rhos, inputs, expected.x, dPad);
    if !sameX {
      return Differs;
    }
    var sameY := CheckRows(rhos, inputs, dPad, expected);
    if !sameY {
      return Differs;
    }
    var wants := WantsChannel(inputs);
    var channel := CheckExpectedChannel(rhos, inputs, dPad, expected, wants);
    if !channel.Matches? {
      return channel;
    }
    var aux := MixAux(rhos, inputs, dPad);
    AuxUnique(rhos, inputs, dPad, aux, expected.aux);
    if expected.aux != aux {
      return Differs;
    }
    if mix(rhos, Commits(inputs)) == expected.c {
      return Matches;
    }
    r := Differs;
  }

  lemma CtLength(claim: Claim)
    ensures CtsMatch(claim.yRing, claim.ct) ==> |claim.ct| == |claim.yRing|
  {}

  lemma AuxLength(rhos: seq<Rq>, inputs: seq<Claim>, dPad: nat, claim: Claim)
    requires Shaped(inputs, dPad) && |rhos| == |inputs|
    ensures AuxMixed(rhos, inputs, dPad, claim.aux) ==> |claim.aux| == |inputs[0].aux|
  {}

  lemma AuxUnique(rhos: seq<Rq>, inputs: seq<Claim>, dPad: nat, a: seq<K>, b: seq<K>)
    requires Shaped(inputs, dPad) && |rhos| == |inputs| && AuxMixed(rhos, inputs, dPad, a) && |a| == |b|
    ensures a == b <==> AuxMixed(rhos, inputs, dPad, b)
  {
    hide AuxMixAt;
  }

  /** Entry by entry, without building the combined matrix. */
  method CheckColumns(rhos: seq<Rq>, inputs: seq<Claim>, x: XMat, ghost dPad: nat) returns (ok: bool)
    requires Shaped(inputs, dPad) && |rhos| == |inputs| && x.Valid() && x.rows == D && x.cols == inputs[0].mIn
    ensures ok <==> x == XMat(D, inputs[0].mIn, LinComb(rhos, Columns(inputs, dPad), inputs[0].mIn, |inputs|))
  {
    ghost var want := LinComb(rhos, Columns(inputs, dPad), inputs[0].mIn, |inputs|);
    hide LinComb;
    for r := 0 to D
      invariant forall i, c :: 0 <= i < r && 0 <= c < x.cols ==> x.data[c][i] == want[c][i]
    {
      for c := 0 to x.cols
        invariant forall k :: 0 <= k < c ==> x.data[k][r] == want[k][r]
      {
        var entry := WantedEntry(rhos, inputs, r, c, dPad);
        if x.data[c][r] != entry {
          assert x.data[c] != want[c];
          return false;
        }
      }
    }
    assert forall c :: 0 <= c < x.cols ==> x.data[c] == want[c];
    assert x.data == want;
    ok := true;
  }

  method WantedEntry(rhos: seq<Rq>, inputs: seq<Claim>, r: nat, c: nat, ghost dPad: nat) returns (want: Fq)
    requires Shaped(inputs, dPad) && |rhos| == |inputs| && r < D && c < inputs[0].mIn
    ensures want == LinComb(rhos, Columns(inputs, dPad), inputs[0].mIn, |inputs|)[c][r]
  {
    hide Times, ShiftN, Mul, Add, InputShape;
    ghost var xs, m := Columns(inputs, dPad), inputs[0].mIn;
    want := 0;
    for i := 0 to |inputs|
      invariant want == LinComb(rhos, xs, m, i)[c][r]
    {
      InputColumns(inputs, dPad, i);
      want := AddRotatedEntry(want, rhos[i], inputs[i].x.data[c], r);
    }
  }

  /** Row r of rot(rho) times one column, added term by term. */
  method AddRotatedEntry(start: Fq, rho: Rq, col: Rq, r: nat) returns (want: Fq)
    requires r < D
    ensures want == Add(start, Times(rho, col)[r])
  {
    hide Times, ShiftN, Mul, Add;
    want := start;
    AddNothing(start);
    for k := 0 to D
      invariant want == Add(start, Dot(RowOf(Rot(rho), r), col, k))
    {
      RotEntry(rho, r, k);
      AddAssoc(start, Dot(RowOf(Rot(rho), r), col, k), Mul(ShiftN(k, rho)[r], col[k]));
      want := Add(want, Mul(ShiftN(k, rho)[r], col[k]));
    }
    RotActsAsTimes(rho, col, r);
  }

  lemma AddNothing(x: Fq)
    ensures Add(x, 0) == x
  {}

  method CheckRows(rhos: seq<Rq>, inputs: seq<Claim>, dPad: nat, expected: Claim) returns (ok: bool)
    requires Shaped(inputs, dPad) && |rhos| == |inputs| && dPad >= D
    requires |expected.yRing| == |expected.ct| == |inputs[0].yRing|
    ensures ok <==> RowsMixed(rhos, inputs, dPad, expected.yRing, |inputs[0].yRing|) && CtsMatch(expected.yRing, expected.ct)
  {
    hide MixedRow;
    for j := 0 to |expected.yRing|
      invariant RowsMixed(rhos, inputs, dPad, expected.yRing, j)
      invariant forall k :: 0 <= k < j ==> expected.ct[k] == CtOfRow(expected.yRing[k])
    {
      if |expected.yRing[j]| != dPad {
        return false;
      }
      var row := MixRow(rhos, RowsAt(inputs, j, dPad), dPad);
      if expected.yRing[j] != row {
        return false;
      }
      if expected.ct[j] != CtOfRow(row) {
        return false;
      }
    }
    ok := true;
  }

  /** The digit-range channel of the expected claim against the inputs. */
  method CheckExpectedChannel(rhos: seq<Rq>, inputs: seq<Claim>, dPad: nat, expected: Claim, wants: bool)
    returns (r: MatchResult)
    requires inputs != [] && |rhos| == |inputs| && dPad >= D && (wants <==> WantsNc(inputs))
    requires expected.sCol == inputs[0].sCol
    ensures r.Matches? ==> NcOk(inputs, dPad)
    ensures r.MatchRefused? ==> !NcOk(inputs, dPad)
    ensures NcOk(inputs, dPad) && wants ==> forall i :: 0 <= i < |inputs| ==> |ZcolRows(inputs)[i]| >= D
    ensures NcOk(inputs, dPad) ==>
      (r.Matches? <==> expected.yZcol == if wants then MixedRow(rhos, ZcolRows(inputs), dPad) else [])
  {
    hide MixedRow;
    if !wants {
      assert inputs[0].sCol == [];
      return if expected.sCol == [] && expected.yZcol == [] then Matches else Differs;
    }
    if |expected.yZcol| != dPad {
      return Differs;
    }
    var verdict := CheckChannelInputs(inputs, dPad);
    if !verdict.Matches? {
      return verdict;
    }
    ChannelRows(inputs, dPad);
    var row := MixRow(rhos, ZcolRows(inputs), dPad);
    r := if expected.yZcol == row then Matches else Differs;
  }

  method CheckChannelInputs(inputs: seq<Claim>, dPad: nat) returns (r: MatchResult)
    requires inputs != []
    ensures r.Matches? <==> forall i :: 0 <= i < |inputs| ==> NcInput(inputs[i], inputs[0], dPad)
  {
    for i := 0 to |inputs|
      invariant forall k :: 0 <= k < i ==> NcInput(inputs[k], inputs[0], dPad)
    {
      if inputs[i].sCol == [] || inputs[i].yZcol == [] {
        assert !NcInput(inputs[i], inputs[0], dPad);
        return MatchRefused;
      }
      if inputs[i].sCol != inputs[0].sCol || |inputs[i].yZcol| != dPad {
        assert !NcInput(inputs[i], inputs[0], dPad);
        return Differs;
      }
    }
    r := Matches;
  }

  /** A combination is determined by its inputs. */
  lemma CombinationUnique(rhos: seq<Rq>, inputs: seq<Claim>, mix: Mixer, dPad: nat, a: Claim, b: Claim)
    requires Shaped(inputs, dPad) && |rhos| == |inputs| && dPad >= D && NcOk(inputs, dPad)
    requires IsCombination(rhos, inputs, mix, dPad, a) && IsCombination(rhos, inputs, mix, dPad, b)
    ensures a == b
  {
    hide MixedRow, LinComb, AuxMixAt, WantsNc;
    assert a.yRing == b.yRing;
    assert a.ct == b.ct;
    assert a.aux == b.aux;
  }

  /** `rlc_public_matches` answers true exactly when `rlc_public` returns the expected claim. */
  method CombineThenMatch(s: Width, rhos: seq<Rq>, inputs: seq<Claim>, expected: Claim, mix: Mixer, ellD: nat)
    returns (c: RlcResult, m: MatchResult)
    requires WellFormed(s, inputs) && expected.x.Valid()
    ensures m.Matches? <==> c == Combined(expected)
  {
    hide InputsOk, NcOk, IsCombination, Pow2Nat;
    c := Combine(s, rhos, inputs, mix, ellD);
    m := CombineMatches(s, rhos, inputs, expected, true, mix, ellD);
    if c.Combined? && m.Matches? {
      PadCoversRows(s, rhos, inputs, true, ellD);
      CombinationUnique(rhos, inputs, mix, Pow2Nat(ellD), c.claim, expected);
    }
  }

  /** `rlc_public_matches_verified_inputs_with_perf`: on verified inputs nothing is lost by skipping their checks. */
  method MatchVerifiedInputs(s: Width, rhos: seq<Rq>, inputs: seq<Claim>, expected: Claim, mix: Mixer, ellD: nat)
    returns (c: RlcResult, m: MatchResult)
    requires WellFormed(s, inputs) && expected.x.Valid() && ClaimsOk(s, inputs)
    ensures m.Matches? <==> c == Combined(expected)
  {
    assert InputsOk(s, rhos, inputs, true, ellD) == InputsOk(s, rhos, inputs, false, ellD);
    hide InputsOk, NcOk, IsCombination, Pow2Nat, ClaimsOk;
    c := Combine(s, rhos, inputs, mix, ellD);
    m := CombineMatches(s, rhos, inputs, expected, false, mix, ellD);
    if c.Combined? && m.Matches? {
      PadCoversRows(s, rhos, inputs, true, ellD);
      CombinationUnique(rhos, inputs, mix, Pow2Nat(ellD), c.claim, expected);
    }
  }

  /** A combination passes the checks on its own constant terms, so it can be used as a parent. */
  lemma CombinationIsConsistent(s: Width, rhos: seq<Rq>, inputs: seq<Claim>, mix: Mixer, dPad: nat, claim: Claim)
    requires Shaped(inputs, dPad) && |rhos| == |inputs| && dPad >= D && NcOk(inputs, dPad)
    requires IsCombination(rhos, inputs, mix, dPad, claim) && |inputs[0].yRing| >= s.t
    ensures CtOk(s, claim)
  {
    hide MixedRow, LinComb, AuxMixed, NcInput;
    assert |claim.ct| == |claim.yRing| == |inputs[0].yRing|;
  }

  // ----- the combined rows are ring combinations -----

  /** The D lanes of a row as two ring elements. */
  function Lanes(row: seq<K>, im: bool): Rq
    requires |row| >= D
  {
    seq(D, k requires 0 <= k < D => if im then row[k].im else row[k].re)
  }

  lemma {:induction false} RotTermParts(rho: Rq, row: seq<K>, r: nat, n: nat)
    requires r < D && n <= D <= |row|
    ensures RotTerm(rho, row, r, n)
         == K(Dot(RowOf(Rot(rho), r), Lanes(row, false), n), Dot(RowOf(Rot(rho), r), Lanes(row, true), n))
  {
    hide KMul, Mul, Add, ShiftN;
    if n != 0 {
      RotTermParts(rho, row, r, n - 1);
      SN.BaseTimes(ShiftN(n - 1, rho)[r], row[n - 1]);
      RotEntry(rho, r, n - 1);
    }
  }

  function LaneRows(rows: seq<seq<K>>, im: bool): (zs: seq<seq<Rq>>)
    requires forall i :: 0 <= i < |rows| ==> |rows[i]| >= D
    ensures |zs| == |rows| && SameLength(zs, 1)
  {
    seq(|rows|, i requires 0 <= i < |rows| => [Lanes(rows[i], im)])
  }

  /** Mixing rows of openings is the ring combination of their lanes: y commutes with rotations. */
  lemma {:induction false} RowMixIsRing(rhos: seq<Rq>, rows: seq<seq<K>>, r: nat, n: nat)
    requires r < D && n <= |rhos| && n <= |rows| && forall i :: 0 <= i < |rows| ==> |rows[i]| >= D
    ensures RowMixAt(rhos, rows, r, n)
         == K(LinComb(rhos, LaneRows(rows, false), 1, n)[0][r], LinComb(rhos, LaneRows(rows, true), 1, n)[0][r])
  {
    hide RotTerm, Times, Add;
    if n != 0 {
      RowMixIsRing(rhos, rows, r, n - 1);
      RotTermParts(rhos[n - 1], rows[n - 1], r, D);
      RotActsAsTimes(rhos[n - 1], Lanes(rows[n - 1], false), r);
      RotActsAsTimes(rhos[n - 1], Lanes(rows[n - 1], true), r);
    }
  }
}
