/** Public verification of a decomposition: parent == sum of b^i child i, field by field. */
module DecPublic {
  import opened Field
  import opened Vectors
  import opened Ring
  import opened ExtField
  import opened KPolynomials
  import opened Ajtai
  import opened Digits
  import opened Norms
  import opened Fold
  import opened ChunkFold
  import opened TimeOpening
  import opened RlcPublic
  import opened RingEval
  import Csc
  import SN = SuperNeo

  type Combiner = (seq<Commitment>, nat) -> Commitment

  // ----- sums over the powers of the base -----

  function PowF(b: nat, i: nat): Fq { Red(Pow(b, i)) }

  /** The sum of b^i x[i] over i < n, in K. */
  function PowSum(b: nat, x: seq<K>, n: nat): K
    requires n <= |x|
  {
    if n == 0 then KZero else KAdd(PowSum(b, x, n - 1), KMul(FromBase(PowF(b, n - 1)), x[n - 1]))
  }

  function PowSumF(b: nat, x: Vec, n: nat): Fq
    requires n <= |x|
  {
    if n == 0 then 0 else Add(PowSumF(b, x, n - 1), Mul(PowF(b, n - 1), x[n - 1]))
  }

  /** Column t of the rows. */
  function Across(rows: seq<seq<K>>, t: nat): (x: seq<K>)
    requires forall i :: 0 <= i < |rows| ==> t < |rows[i]|
    ensures |x| == |rows| && forall i :: 0 <= i < |x| ==> x[i] == rows[i][t]
  {
    seq(|rows|, i requires 0 <= i < |rows| => rows[i][t])
  }

  /** The rows recombine to the target, coordinate by coordinate. */
  ghost predicate Recombines(b: nat, rows: seq<seq<K>>, target: seq<K>) {
    && (forall i :: 0 <= i < |rows| ==> |rows[i]| == |target|)
    && forall t :: 0 <= t < |target| ==> PowSum(b, Across(rows, t), |rows|) == target[t]
  }

  method Powers(b: nat, k: nat) returns (pows: Vec)
    requires b < Q
    ensures |pows| == k && forall i :: 0 <= i < k ==> pows[i] == PowF(b, i)
  {
    hide Red, Mul;
    pows := [];
    var p: Fq := 1;
    PowStart(b);
    for i := 0 to k
      invariant |pows| == i && forall n :: 0 <= n < i ==> pows[n] == PowF(b, n)
      invariant p == PowF(b, i)
    {
      PowStep(b, i);
      pows := pows + [p];
      p := Mul(p, b);
    }
  }

  /** The left-hand side of the checks on one row. */
  method RowSum(pows: Vec, b: nat, rows: seq<seq<K>>, len: nat) returns (lhs: seq<K>)
    requires |pows| == |rows| && forall i :: 0 <= i < |rows| ==> |rows[i]| == len && pows[i] == PowF(b, i)
    ensures |lhs| == len && forall t :: 0 <= t < len ==> lhs[t] == PowSum(b, Across(rows, t), |rows|)
  {
    hide KMul, KAdd, PowF;
    lhs := KZeros(len);
    for i := 0 to |rows|
      invariant |lhs| == len && forall t :: 0 <= t < len ==> lhs[t] == PowSum(b, Across(rows, t), i)
    {
      var before := lhs;
      for t := 0 to len
        invariant |lhs| == len
        invariant forall n :: 0 <= n < len ==> lhs[n] == if n < t then PowSum(b, Across(rows, n), i + 1) else before[n]
      {
        lhs := lhs[t := KAdd(lhs[t], KMul(FromBase(pows[i]), rows[i][t]))];
      }
    }
  }

  method CheckRow(pows: Vec, b: nat, rows: seq<seq<K>>, target: seq<K>) returns (ok: bool)
    requires |pows| == |rows| && forall i :: 0 <= i < |rows| ==> |rows[i]| == |target| && pows[i] == PowF(b, i)
    ensures ok <==> Recombines(b, rows, target)
  {
    hide PowSum;
    var lhs := RowSum(pows, b, rows, |target|);
    ok := lhs == target;
  }

  // ----- what the verifier accepts -----

  /** Constant terms of parent and children, and one point for all. */
  ghost predicate FamilyOk(s: Width, parent: Claim, children: seq<Claim>) {
    CtOk(s, parent) && forall i :: 0 <= i < |children| ==> CtOk(s, children[i]) && children[i].r == parent.r
  }

  ghost predicate XShape(x: XMat, cols: nat) { x.Valid() && x.rows == D && x.cols == cols }

  /** Entry (r, c), zero outside. */
  function XEntry(x: XMat, r: nat, c: nat): Fq { if c < |x.data| && r < |x.data[c]| then x.data[c][r] else 0 }

  function XAcross(children: seq<Claim>, r: nat, c: nat): (x: Vec)
    ensures |x| == |children| && forall i :: 0 <= i < |x| ==> x[i] == XEntry(children[i].x, r, c)
  {
    seq(|children|, i requires 0 <= i < |children| => XEntry(children[i].x, r, c))
  }

  ghost predicate ChildShape(s: Width, parent: Claim, ch: Claim) {
    && ch.mIn <= s.m && ch.mIn == parent.mIn && ch.x.rows == D && ch.x.cols == parent.mIn
    && |ch.yRing| == |parent.yRing| && |ch.ct| == |parent.ct| && |ch.aux| == |parent.aux|
  }

  ghost predicate Shapes(s: Width, parent: Claim, children: seq<Claim>) {
    && parent.mIn <= s.m && parent.x.rows == D && parent.x.cols == parent.mIn
    && |parent.yRing| >= s.t && |parent.ct| == |parent.yRing|
    && forall i :: 0 <= i < |children| ==> ChildShape(s, parent, children[i])
  }

  ghost predicate WellFormedClaims(parent: Claim, children: seq<Claim>) {
    parent.x.Valid() && forall i :: 0 <= i < |children| ==> children[i].x.Valid()
  }

  /** The digit-range channel: lengths and points only. */
  ghost predicate ChannelOk(parent: Claim, children: seq<Claim>, dPad: nat) {
    if parent.sCol == [] && parent.yZcol == [] then
      forall i :: 0 <= i < |children| ==> children[i].sCol == [] && children[i].yZcol == []
    else
      && parent.sCol != [] && |parent.yZcol| == dPad > 0
      && forall i :: 0 <= i < |children| ==> children[i].sCol == parent.sCol && |children[i].yZcol| == dPad
  }

  function YRows(children: seq<Claim>, j: nat): (rows: seq<seq<K>>)
    requires forall i :: 0 <= i < |children| ==> j < |children[i].yRing|
    ensures |rows| == |children| && forall i :: 0 <= i < |rows| ==> rows[i] == children[i].yRing[j]
  {
    seq(|children|, i requires 0 <= i < |children| => children[i].yRing[j])
  }

  function CtRows(children: seq<Claim>): (rows: seq<seq<K>>)
    ensures |rows| == |children| && forall i :: 0 <= i < |rows| ==> rows[i] == children[i].ct
  {
    seq(|children|, i requires 0 <= i < |children| => children[i].ct)
  }

  function AuxRows(children: seq<Claim>): (rows: seq<seq<K>>)
    ensures |rows| == |children| && forall i :: 0 <= i < |rows| ==> rows[i] == children[i].aux
  {
    seq(|children|, i requires 0 <= i < |children| => children[i].aux)
  }

  ghost predicate XRecombines(b: nat, parent: Claim, children: seq<Claim>)
    requires parent.x.Valid() && parent.x.rows == D
    requires forall i :: 0 <= i < |children| ==> XShape(children[i].x, parent.x.cols)
  {
    forall r, c :: 0 <= r < D && 0 <= c < parent.x.cols ==>
      PowSumF(b, XAcross(children, r, c), |children|) == XEntry(parent.x, r, c)
  }

  ghost predicate YRecombines(b: nat, parent: Claim, children: seq<Claim>, dPad: nat, n: nat)
    requires n <= |parent.yRing| && forall i :: 0 <= i < |children| ==> |children[i].yRing| == |parent.yRing|
  {
    forall j :: 0 <= j < n ==> |parent.yRing[j]| == dPad && Recombines(b, YRows(children, j), parent.yRing[j])
  }

  /** Everything `verify_dec_public` requires; the values of the digit-range rows are not among it. */
  ghost predicate DecAccepted(s: Width, parent: Claim, children: seq<Claim>, b: nat, combine: Combiner, ellD: nat)
    requires WellFormedClaims(parent, children)
  {
    && s.m > 0 && children != [] && FamilyOk(s, parent, children) && Shapes(s, parent, children) && ellD < 64
    && ChannelOk(parent, children, Pow2Nat(ellD))
    && XRecombines(b, parent, children)
    && YRecombines(b, parent, children, Pow2Nat(ellD), |parent.yRing|)
    && Recombines(b, CtRows(children), parent.ct) && Recombines(b, AuxRows(children), parent.aux)
    && combine(Commits(children), b) == parent.c
  }

  method CheckFamily(s: Width, parent: Claim, children: seq<Claim>) returns (ok: bool)
    ensures ok <==> FamilyOk(s, parent, children)
  {
    hide CtOk;
    ok := CheckCt(s, parent);
    for i := 0 to |children|
      invariant ok <==> CtOk(s, parent) && forall k :: 0 <= k < i ==> CtOk(s, children[k])
    {
      if ok {
        ok := CheckCt(s, children[i]);
      }
    }
    for i := 0 to |children|
      invariant ok ==> CtOk(s, parent) && forall k :: 0 <= k < |children| ==> CtOk(s, children[k])
      invariant ok ==> forall k :: 0 <= k < i ==> children[k].r == parent.r
      invariant !ok ==> !FamilyOk(s, parent, children)
    {
      if children[i].r != parent.r {
        ok := false;
      }
    }
  }

  method CheckShapes(s: Width, parent: Claim, children: seq<Claim>) returns (ok: bool)
    ensures ok <==> Shapes(s, parent, children)
  {
    if parent.mIn > s.m || parent.x.rows != D || parent.x.cols != parent.mIn
       || |parent.yRing| < s.t || |parent.ct| != |parent.yRing| {
      return false;
    }
    for i := 0 to |children|
      invariant forall k :: 0 <= k < i ==> ChildShape(s, parent, children[k])
    {
      var ch := children[i];
      if ch.mIn > s.m || ch.mIn != parent.mIn || ch.x.rows != D || ch.x.cols != parent.mIn
         || |ch.yRing| != |parent.yRing| || |ch.ct| != |parent.ct| || |ch.aux| != |parent.aux| {
        assert !ChildShape(s, parent, children[i]);
        return false;
      }
    }
    ok := true;
  }

  method CheckDecChannel(parent: Claim, children: seq<Claim>, dPad: nat) returns (ok: bool)
    ensures ok <==> ChannelOk(parent, children, dPad)
  {
    var want := !(parent.sCol == [] && parent.yZcol == []);
    if want && (parent.sCol == [] || parent.yZcol == [] || |parent.yZcol| != dPad) {
      return false;
    }
    for i := 0 to |children|
      invariant want ==> forall k :: 0 <= k < i ==> children[k].sCol == parent.sCol && |children[k].yZcol| == dPad
      invariant !want ==> forall k :: 0 <= k < i ==> children[k].sCol == [] && children[k].yZcol == []
    {
      if want && (children[i].sCol != parent.sCol || |children[i].yZcol| != dPad) {
        return false;
      }
      if !want && !(children[i].sCol == [] && children[i].yZcol == []) {
        return false;
      }
    }
    ok := true;
  }

  method CheckX(pows: Vec, b: nat, parent: Claim, children: seq<Claim>) returns (ok: bool)
    requires |pows| == |children| && forall i :: 0 <= i < |pows| ==> pows[i] == PowF(b, i)
    requires parent.x.Valid() && parent.x.rows == D
    requires forall i :: 0 <= i < |children| ==> XShape(children[i].x, parent.x.cols)
    ensures ok <==> XRecombines(b, parent, children)
  {
    hide Mul, Add, PowF;
    for r := 0 to D
      invariant forall i, c :: 0 <= i < r && 0 <= c < parent.x.cols ==>
        PowSumF(b, XAcross(children, i, c), |children|) == XEntry(parent.x, i, c)
    {
      for c := 0 to parent.x.cols
        invariant forall k :: 0 <= k < c ==> PowSumF(b, XAcross(children, r, k), |children|) == XEntry(parent.x, r, k)
      {
        var lhs: Fq := 0;
        ghost var x := XAcross(children, r, c);
        for i := 0 to |children|
          invariant lhs == PowSumF(b, x, i)
        {
          assert x[i] == children[i].x.data[c][r];
          lhs := Add(lhs, Mul(pows[i], children[i].x.data[c][r]));
        }
        if lhs != parent.x.data[c][r] {
          return false;
        }
      }
    }
    ok := true;
  }

  method CheckY(pows: Vec, b: nat, parent: Claim, children: seq<Claim>, dPad: nat) returns (ok: bool)
    requires |pows| == |children| && forall i :: 0 <= i < |pows| ==> pows[i] == PowF(b, i)
    requires forall i :: 0 <= i < |children| ==> |children[i].yRing| == |parent.yRing|
    ensures ok <==> YRecombines(b, parent, children, dPad, |parent.yRing|)
  {
    hide PowSum, PowF;
    for j := 0 to |parent.yRing|
      invariant YRecombines(b, parent, children, dPad, j)
    {
      var rows := YRows(children, j);
      var same := AllRowsOfLength(rows, dPad);
      if !same || |parent.yRing[j]| != dPad {
        return false;
      }
      var row := CheckRow(pows, b, rows, parent.yRing[j]);
      if !row {
        return false;
      }
    }
    ok := true;
  }

  method AllRowsOfLength(rows: seq<seq<K>>, n: nat) returns (ok: bool)
    ensures ok <==> forall i :: 0 <= i < |rows| ==> |rows[i]| == n
  {
    for i := 0 to |rows|
      invariant forall k :: 0 <= k < i ==> |rows[k]| == n
    {
      if |rows[i]| != n {
        return false;
      }
    }
    ok := true;
  }

  lemma ShapesGive(s: Width, parent: Claim, children: seq<Claim>)
    requires WellFormedClaims(parent, children) && Shapes(s, parent, children)
    ensures forall i :: 0 <= i < |children| ==> XShape(children[i].x, parent.x.cols)
    ensures forall i :: 0 <= i < |children| ==> |children[i].yRing| == |parent.yRing|
    ensures forall i :: 0 <= i < |children| ==> |CtRows(children)[i]| == |parent.ct|
    ensures forall i :: 0 <= i < |children| ==> |AuxRows(children)[i]| == |parent.aux|
  {}

  /** `verify_dec_public`. */
  method VerifyDecPublic(s: Width, parent: Claim, children: seq<Claim>, b: nat, combine: Combiner, ellD: nat)
    returns (ok: bool)
    requires WellFormedClaims(parent, children) && b < Q
    ensures ok <==> DecAccepted(s, parent, children, b, combine, ellD)
  {
    hide FamilyOk;
    if s.m == 0 || children == [] {
      return false;
    }
    var family := CheckFamily(s, parent, children);
    if !family {
      return false;
    }
    var shapes := CheckShapes(s, parent, children);
    if !shapes || ellD >= 64 {
      return false;
    }
    ShapesGive(s, parent, children);
    hide Shapes, ChannelOk, XRecombines, YRecombines, Recombines, Pow2Nat, PowF;
    var pows := Powers(b, |children|);
    var channel := CheckDecChannel(parent, children, Pow2Nat(ellD));
    var x := CheckX(pows, b, parent, children);
    var y := CheckY(pows, b, parent, children, Pow2Nat(ellD));
    var ct := CheckRow(pows, b, CtRows(children), parent.ct);
    var aux := CheckRow(pows, b, AuxRows(children), parent.aux);
    ok := channel && x && y && ct && aux && combine(Commits(children), b) == parent.c;
  }

  // ----- the digit-range channel goes unchecked -----

  /** Other channel rows of the same lengths. */
  ghost predicate SameLengths(parent: Claim, children: seq<Claim>, row: seq<K>, rows: seq<seq<K>>) {
    && |row| == |parent.yZcol| && |rows| == |children|
    && forall i :: 0 <= i < |rows| ==> |rows[i]| == |children[i].yZcol|
  }

  function Replaced(children: seq<Claim>, rows: seq<seq<K>>): (cs: seq<Claim>)
    requires |rows| == |children|
    ensures |cs| == |children|
  {
    seq(|children|, i requires 0 <= i < |children| => children[i].(yZcol := rows[i]))
  }

  /** Acceptance does not depend on the values of the channel. */
  lemma ChannelValuesUnchecked(s: Width, parent: Claim, children: seq<Claim>, b: nat, combine: Combiner, ellD: nat,
                               row: seq<K>, rows: seq<seq<K>>)
    requires WellFormedClaims(parent, children) && SameLengths(parent, children, row, rows)
    ensures DecAccepted(s, parent, children, b, combine, ellD)
       <==> DecAccepted(s, parent.(yZcol := row), Replaced(children, rows), b, combine, ellD)
  {
    var p, cs := parent.(yZcol := row), Replaced(children, rows);
    assert Commits(cs) == Commits(children) && CtRows(cs) == CtRows(children) && AuxRows(cs) == AuxRows(children);
    hide Recombines, PowSumF, Pow2Nat;
    ReplacedShapes(s, parent, children, row, rows);
    if Shapes(s, parent, children) {
      assert forall j :: 0 <= j < |parent.yRing| ==> YRows(cs, j) == YRows(children, j);
      assert forall r, c :: 0 <= r < D && 0 <= c < parent.x.cols ==> XAcross(cs, r, c) == XAcross(children, r, c);
    }
  }

  lemma ReplacedShapes(s: Width, parent: Claim, children: seq<Claim>, row: seq<K>, rows: seq<seq<K>>)
    requires SameLengths(parent, children, row, rows)
    ensures var (p, cs) := (parent.(yZcol := row), Replaced(children, rows));
            && (Shapes(s, parent, children) <==> Shapes(s, p, cs))
            && (FamilyOk(s, parent, children) <==> FamilyOk(s, p, cs))
            && forall dPad :: ChannelOk(parent, children, dPad) <==> ChannelOk(p, cs, dPad)
  {
    var cs := Replaced(children, rows);
    assert forall i :: 0 <= i < |children| ==> cs[i] == children[i].(yZcol := rows[i]);
    assert Shapes(s, parent, children) ==> Shapes(s, parent.(yZcol := row), cs);
    forall i | 0 <= i < |children|
      ensures children[i] == cs[i].(yZcol := children[i].yZcol)
    {}
  }

  /** The channel of the children recombines to the parent's. */
  ghost predicate ChannelRecombines(b: nat, parent: Claim, children: seq<Claim>) {
    Recombines(b, ZcolRows(children), parent.yZcol)
  }

  lemma {:induction false} ZeroSum(b: nat, x: seq<K>, n: nat)
    requires n <= |x| && forall i :: 0 <= i < n ==> x[i] == KZero
    ensures PowSum(b, x, n) == KZero
  {
    hide KMul;
    if n != 0 {
      ZeroSum(b, x, n - 1);
      KMulOne(FromBase(PowF(b, n - 1)));
      KAddZero(KZero);
    }
  }

  /** Ones for the parent and zeros for the children: lengths as before, values that do not recombine. */
  lemma BadChannel(b: nat, parent: Claim, children: seq<Claim>) returns (row: seq<K>, rows: seq<seq<K>>)
    requires parent.yZcol != [] && forall i :: 0 <= i < |children| ==> |children[i].yZcol| == |parent.yZcol|
    ensures SameLengths(parent, children, row, rows)
    ensures !ChannelRecombines(b, parent.(yZcol := row), Replaced(children, rows))
  {
    var n := |parent.yZcol|;
    row := seq(n, t => KOne);
    rows := seq(|children|, i => KZeros(n));
    var z := ZcolRows(Replaced(children, rows));
    assert forall i :: 0 <= i < |children| ==> z[i] == KZeros(n);
    ZeroSum(b, Across(z, 0), |z|);
  }

  /**
   Every claim of the shape of an accepted one is accepted; all of them recombine their channel exactly
   when there is no channel.
   */
  lemma ChannelRecombinesExactly(s: Width, parent: Claim, children: seq<Claim>, b: nat, combine: Combiner, ellD: nat)
    requires WellFormedClaims(parent, children) && DecAccepted(s, parent, children, b, combine, ellD)
    ensures (forall row: seq<K>, rows: seq<seq<K>> :: SameLengths(parent, children, row, rows) ==>
               DecAccepted(s, parent.(yZcol := row), Replaced(children, rows), b, combine, ellD)
               && ChannelRecombines(b, parent.(yZcol := row), Replaced(children, rows)))
       <==> parent.yZcol == []
  {
    assert ChannelOk(parent, children, Pow2Nat(ellD));
    hide DecAccepted, Pow2Nat;
    forall row: seq<K>, rows: seq<seq<K>> | SameLengths(parent, children, row, rows)
      ensures DecAccepted(s, parent.(yZcol := row), Replaced(children, rows), b, combine, ellD)
    {
      ChannelValuesUnchecked(s, parent, children, b, combine, ellD, row, rows);
    }
    if parent.yZcol != [] {
      var row, rows := BadChannel(b, parent, children);
    }
  }

  /** A claim with one zero row and the given channel. */
  function Plain(row: seq<K>): Claim {
    Claim([], 0, 0, [], XMat(D, 0, []), [], [KOne], [[KZero]], [KZero], [], row, 0, 0)
  }

  /** An accepted decomposition whose channel does not recombine: 1 from the single child 0. */
  method ChannelExample() returns (accepted: bool)
    ensures accepted && !ChannelRecombines(2, Plain([KOne]), [Plain([KZero])])
  {
    var parent, child := Plain([KOne]), Plain([KZero]);
    ZeroSum(2, Across(ZcolRows([child]), 0), 1);
    ZeroSum(2, Across(YRows([child], 0), 0), 1);
    ZeroSum(2, Across(CtRows([child]), 0), 1);
    assert Recombines(2, YRows([child], 0), [KZero]) && Recombines(2, CtRows([child]), [KZero]);
    assert Recombines(2, AuxRows([child]), []);
    hide PowSum, PowSumF, Recombines;
    accepted := VerifyDecPublic(Width(1, 1), parent, [child], 2, (cs, b) => [], 0);
  }

  // ----- honest children -----

  /** An opening as a padded row of K. */
  function PadRow(v: seq<Rq>, dPad: nat): (row: seq<K>)
    requires |v| == 2
    ensures |row| == dPad
  {
    seq(dPad, t requires 0 <= t => if t < D then K(v[0][t], v[1][t]) else KZero)
  }

  function PadRows(vs: seq<seq<Rq>>, dPad: nat): (rows: seq<seq<K>>)
    requires SameLength(vs, 2)
    ensures |rows| == |vs| && forall i :: 0 <= i < |rows| ==> |rows[i]| == dPad
  {
    seq(|vs|, i requires 0 <= i < |vs| => PadRow(vs[i], dPad))
  }

  lemma {:induction false} PaddedSum(b: nat, vs: seq<seq<Rq>>, dPad: nat, t: nat, n: nat)
    requires SameLength(vs, 2) && n <= |vs| && t < dPad
    ensures PowSum(b, Across(PadRows(vs, dPad), t), n)
         == if t < D then K(LinComb(PowRhos(b, |vs|), vs, 2, n)[0][t], LinComb(PowRhos(b, |vs|), vs, 2, n)[1][t]) else KZero
  {
    hide Red, Times, KMul, Mul;
    if n != 0 {
      PaddedSum(b, vs, dPad, t, n - 1);
      var c, v := PowF(b, n - 1), vs[n - 1];
      ScalarTimes(c, v[0]);
      ScalarTimes(c, v[1]);
      if t < D {
        SN.BaseTimes(c, K(v[0][t], v[1][t]));
      } else {
        KMulOne(FromBase(c));
        KAddZero(KZero);
      }
    }
  }

  /** The openings of an honest split pass the row checks for every padded length and every matrix. */
  lemma HonestOpeningsRecombine(mat: Csc.CcsMatrix, chi: seq<K>, n: nat, z: seq<Rq>, b: nat, k: nat, dPad: nat)
    requires mat.Valid() && n <= |chi| && |z| == SN.BlockCount(mat.Cols())
    requires b >= 2 && SmallWitness(z, MaxRep(b, k))
    ensures Recombines(b, PadRows(Commitments(OpeningRows(mat, chi, n), Children(z, b, k), |z|), dPad),
                       PadRow(Opening(mat, chi, n, z), dPad))
  {
    hide CommitSpec, OpeningRows, LinComb, Opening, Children, SmallWitness, MaxRep, PowSum;
    var vs := Commitments(OpeningRows(mat, chi, n), Children(z, b, k), |z|);
    ChildOpeningsRecombine(mat, chi, n, z, b, k);
    forall t | 0 <= t < dPad
      ensures PowSum(b, Across(PadRows(vs, dPad), t), k) == PadRow(Opening(mat, chi, n, z), dPad)[t]
    {
      PaddedSum(b, vs, dPad, t, k);
    }
  }
}
