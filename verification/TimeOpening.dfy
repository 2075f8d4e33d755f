/** Time-opening unification: group selectors, their sum-check, and the multilinear weights. */
module TimeOpening {
  import opened Arithmetic
  import opened ExtField
  import opened KPolynomials
  import opened SumCheck

  // ----- weights -----

  /** `bit_at`. */
  predicate BitAt(index: nat, bit: nat)
    decreases bit
  {
    if bit == 0 then index % 2 == 1 else BitAt(index / 2, bit - 1)
  }

  /** `bit_weight`. */
  function BitWeight(bit: bool, x: K): K { if bit then x else KSub(KOne, x) }

  /** The weight of group g at r: one factor per coordinate. */
  function Weight(g: nat, r: seq<K>): K {
    if r == [] then KOne
    else
      var n := |r| - 1;
      KMul(Weight(g, r[..n]), BitWeight(BitAt(g, n), r[n]))
  }

  /** The weighted sum of the first n values. */
  function Selected(values: seq<K>, r: seq<K>, n: nat): K
    requires n <= |values|
  {
    if n == 0 then KZero
    else KAdd(Selected(values, r, n - 1), KMul(Weight(n - 1, r), values[n - 1]))
  }

  function SumOf(values: seq<K>): K {
    if values == [] then KZero
    else
      var n := |values| - 1;
      KAdd(SumOf(values[..n]), values[n])
  }

  /** `eval_at_point`. */
  method EvalAtPoint(values: seq<K>, r: seq<K>) returns (acc: K)
    ensures acc == Selected(values, r, |values|)
  {
    hide KMul, KAdd, BitWeight, BitAt;
    acc := KZero;
    for g := 0 to |values|
      invariant acc == Selected(values, r, g)
    {
      var weight := PointWeight(g, r);
      acc := KAdd(acc, KMul(weight, values[g]));
    }
  }

  method PointWeight(g: nat, r: seq<K>) returns (weight: K)
    ensures weight == Weight(g, r)
  {
    hide KMul, BitWeight, BitAt;
    weight := KOne;
    for i := 0 to |r|
      invariant weight == Weight(g, r[..i])
    {
      assert r[..i + 1][..i] == r[..i];
      weight := KMul(weight, BitWeight(BitAt(g, i), r[i]));
    }
    assert r[..|r|] == r;
  }

  // ----- the selector oracle -----

  datatype Selector = Selector(values: seq<K>, ell: nat, prefix: seq<K>)

  function SelectorSample(s: Selector, x: K): K {
    if |s.prefix| >= s.ell then KZero else Selected(s.values, s.prefix + [x], |s.values|)
  }

  function SelectorEvals(s: Selector, points: seq<K>): (out: seq<K>)
    ensures |out| == |points|
  {
    seq(|points|, k requires 0 <= k < |points| => SelectorSample(s, points[k]))
  }

  function SelectorRounds(s: Selector): nat { if |s.prefix| < s.ell then s.ell - |s.prefix| else 0 }

  /** `GroupSelectorOracle` as a round oracle. */
  function SelectorOracle(): Oracle<Selector> {
    Oracle(SelectorRounds, s => 1, (s, points) => (SelectorEvals(s, points), s),
           (s: Selector, r) => s.(prefix := s.prefix + [r]))
  }

  /** `evals_at`: group by group into one slot per point. */
  method EvalsAt(s: Selector, points: seq<K>) returns (out: seq<K>)
    ensures out == SelectorEvals(s, points)
  {
    hide KMul, KAdd, BitWeight, BitAt;
    out := KZeros(|points|);
    if |s.prefix| >= s.ell {
      return;
    }
    var round := |s.prefix|;
    for g := 0 to |s.values|
      invariant |out| == |points|
      invariant forall k :: 0 <= k < |points| ==> out[k] == Selected(s.values, s.prefix + [points[k]], g)
    {
      var prefixWeight := PointWeight(g, s.prefix);
      ghost var before := out;
      for k := 0 to |points|
        invariant |out| == |points|
        invariant forall l :: k <= l < |points| ==> out[l] == before[l]
        invariant forall l :: 0 <= l < k ==> out[l] == Selected(s.values, s.prefix + [points[l]], g + 1)
      {
        WeightAppend(g, s.prefix, points[k]);
        var weight := KMul(prefixWeight, BitWeight(BitAt(g, round), points[k]));
        out := out[k := KAdd(out[k], KMul(weight, s.values[g]))];
      }
    }
  }

  lemma WeightAppend(g: nat, r: seq<K>, x: K)
    ensures Weight(g, r + [x]) == KMul(Weight(g, r), BitWeight(BitAt(g, |r|), x))
  {
    assert (r + [x])[..|r|] == r;
  }

  /** One more coordinate enters linearly. */
  lemma {:induction false} SelectedLine(values: seq<K>, r: seq<K>, n: nat) returns (t: KPoly)
    requires n <= |values|
    ensures |t| == 2 && forall x :: Eval(t, x) == Selected(values, r + [x], n)
  {
    hide KMul, KAdd, KSub, Weight;
    if n == 0 {
      t := KZeros(2);
      forall x
        ensures Eval(t, x) == KZero
      {
        EvalZeros(2, x);
      }
    } else {
      var rest := SelectedLine(values, r, n - 1);
      var bit := BitAt(n - 1, |r|);
      var w, v := Weight(n - 1, r), values[n - 1];
      var step := PolyScale(KMul(w, v), BitLine(bit));
      t := PolyAdd(rest, step);
      forall x
        ensures Eval(t, x) == Selected(values, r + [x], n)
      {
        EvalAdd(rest, step, x);
        EvalScale(KMul(w, v), BitLine(bit), x);
        EvalBitLine(bit, x);
        WeightAppend(n - 1, r, x);
        KMulAssoc(w, v, BitWeight(bit, x));
        KMulAssoc(w, BitWeight(bit, x), v);
        KMulComm(v, BitWeight(bit, x));
      }
    }
  }

  function BitLine(bit: bool): KPoly { if bit then [KZero, KOne] else [KOne, KNeg(KOne)] }

  lemma EvalBitLine(bit: bool, x: K)
    ensures Eval(BitLine(bit), x) == BitWeight(bit, x)
  {
    var c := BitLine(bit);
    assert Eval(c[1..][1..], x) == KZero;
    assert c[1..][0] == c[1];
    KMulOne(x);
    KAddZero(c[1]);
    KAddZero(x);
    KMulComm(x, KNeg(KOne));
    if !bit {
      KMulSub(x, KZero, KOne);
    }
    hide KMul;
  }

  /** Summing a coordinate over 0 and 1 removes it. */
  lemma {:induction false} SelectedSumsOut(values: seq<K>, r: seq<K>, n: nat)
    requires n <= |values|
    ensures KAdd(Selected(values, r + [KZero], n), Selected(values, r + [KOne], n)) == Selected(values, r, n)
  {
    hide KMul, Weight;
    if n != 0 {
      SelectedSumsOut(values, r, n - 1);
      WeightAppend(n - 1, r, KZero);
      WeightAppend(n - 1, r, KOne);
      var w, v := Weight(n - 1, r), values[n - 1];
      KMulOne(w);
      KMulOne(v);
      KAddZero(KMul(w, v));
      assert KSub(KOne, KZero) == KOne && KSub(KOne, KOne) == KZero;
      KAddSwap(Selected(values, r + [KZero], n - 1), KMul(Weight(n - 1, r + [KZero]), v),
               Selected(values, r + [KOne], n - 1), KMul(Weight(n - 1, r + [KOne]), v));
      hide KAdd, KSub;
    }
  }

  lemma {:induction false} SelectedNothing(values: seq<K>, n: nat)
    requires n <= |values|
    ensures Selected(values, [], n) == SumOf(values[..n])
  {
    hide KMul, KAdd;
    if n != 0 {
      SelectedNothing(values, n - 1);
      KMulOne(values[n - 1]);
      assert values[..n][..n - 1] == values[..n - 1];
    }
  }

  // ----- the sum-check never breaks -----

  lemma SelectorIsRegular()
    ensures Regular(SelectorOracle())
  {}

  lemma SelectorSampleSum(s: Selector)
    ensures Regular(SelectorOracle())
    ensures |s.prefix| < s.ell ==>
      SampleSum(SelectorOracle(), s) == Selected(s.values, s.prefix, |s.values|)
  {
    SelectorIsRegular();
    assert Nodes(1)[0] == KZero && Nodes(1)[1] == KOne;
    SelectedSumsOut(s.values, s.prefix, |s.values|);
    hide KAdd, Selected;
  }

  lemma SelectorRoundValue(s: Selector, c: KPoly, r: K)
    requires |s.prefix| < s.ell && Regular(SelectorOracle())
    requires CarriesSamples(SelectorOracle(), s, c)
    ensures Eval(c, r) == Selected(s.values, s.prefix + [r], |s.values|)
  {
    hide Eval, Selected;
    var t := SelectedLine(s.values, s.prefix, |s.values|);
    NodesDistinct(1);
    var o := SelectorOracle();
    assert o.evalsAt(s, Nodes(1)).0 == SelectorEvals(s, Nodes(1));
    assert forall m :: 0 <= m < 2 ==> Eval(c, Nodes(1)[m]) == SelectorSample(s, Nodes(1)[m]);
    hide Nodes;
    SamplesDetermine(Nodes(1), c, t);
  }

  /** After any honest rounds the running sum is the selection at the challenges so far. */
  lemma {:induction false} SelectorRuns(values: seq<K>, ell: nat, hash: Hash, start: Running, rounds: seq<KPoly>)
    requires start.sum == SumOf(values) && |rounds| <= ell
    requires Regular(SelectorOracle())
    requires Honest(SelectorOracle(), Selector(values, ell, []), hash, start, rounds)
    ensures var r := Challenges(hash, start, rounds);
            && StateAfter(SelectorOracle(), Selector(values, ell, []), hash, start, rounds) == Selector(values, ell, r)
            && Walk(hash, start, rounds).sum == Selected(values, r, |values|)
  {
    hide Eval, KAdd, KMul, CarriesSamples, Selected, RoundChallenge;
    var s0 := Selector(values, ell, []);
    if rounds == [] {
      SelectedNothing(values, |values|);
      assert values[..|values|] == values;
    } else {
      var n := |rounds| - 1;
      var before, c := rounds[..n], rounds[n];
      assert rounds == before + [c];
      assert forall k :: 0 <= k < n ==> before[..k] == rounds[..k];
      SelectorRuns(values, ell, hash, start, before);
      ChallengesAppend(hash, start, before, c);
      var r := RoundChallenge(hash, Walk(hash, start, before).log, c);
      var s := Selector(values, ell, Challenges(hash, start, before));
      assert CarriesSamples(SelectorOracle(), s, c);
      hide Honest, Challenges;
      SelectorRoundValue(s, c, r);
    }
  }

  /** The prover cannot stop early on a selector. */
  lemma SelectorNeverFails(values: seq<K>, ell: nat, hash: Hash, start: Running, r: ProverResult,
                           honest: seq<KPoly>, now: Running)
    requires start.sum == SumOf(values)
    requires Regular(SelectorOracle())
    requires ProverResultOk(SelectorOracle(), Selector(values, ell, []), hash, start, r, honest, now)
    ensures r.Proved? && |r.rounds| == ell && r.rounds == honest
    ensures Accepts(hash, start, 1, honest)
    ensures now == Walk(hash, start, honest)
    ensures r.challenges == Challenges(hash, start, honest)
    ensures now.sum == Selected(values, r.challenges, |values|)
  {
    hide Eval, KAdd, KMul, Selected, Honest, KeepsSum, Challenges, SampleSum, SelectorEvals;
    var s0 := Selector(values, ell, []);
    assert SelectorOracle().numRounds(s0) == ell;
    SelectorRuns(values, ell, hash, start, honest);
    SelectorSampleSum(Selector(values, ell, Challenges(hash, start, honest)));
    Completeness(SelectorOracle(), s0, hash, start, honest, 1);
  }

  // ----- prove and verify -----

  datatype UnificationProof = UnificationProof(claimedSum: K, rounds: seq<KPoly>, point: seq<K>)

  datatype Verdict =
    | Accepted
    | ProofNotEmpty
    | WrongRoundCount
    | WrongClaimedSum
    | RoundsRejected
    | WrongPoint
    | WrongFinalValue

  function Pow2Nat(e: nat): (p: nat)
    ensures p >= 1
  {
    if e == 0 then 1 else 2 * Pow2Nat(e - 1)
  }

  /** `ceil_log2_at_least_1`: the least positive number of selector bits. */
  method CeilLog2AtLeast1(n: nat) returns (e: nat)
    ensures e >= 1 && n <= Pow2Nat(e)
    ensures e > 1 ==> Pow2Nat(e - 1) < n
  {
    e := 0;
    while Pow2Nat(e) < n
      invariant e > 0 ==> Pow2Nat(e - 1) < n
      decreases n - Pow2Nat(e)
    {
      e := e + 1;
    }
    if e == 0 {
      e := 1;
    }
  }

  method AddUp(values: seq<K>) returns (acc: K)
    ensures acc == SumOf(values)
  {
    hide KAdd;
    acc := KZero;
    for g := 0 to |values|
      invariant acc == SumOf(values[..g])
    {
      assert values[..g + 1][..g] == values[..g];
      acc := KAdd(acc, values[g]);
    }
    assert values[..|values|] == values;
  }

  const EMPTY_PROOF := UnificationProof(KZero, [], [])

  /**
   `prove_opening_unification` on the group values; `bound` is the transcript after the statement.
   It never fails, and its proof is right: the final value is the selection of the values.
   */
  method ProveUnification(hash: Hash, bound: seq<Msg>, values: seq<K>) returns (proof: UnificationProof)
    ensures UnificationHolds(hash, bound, values, proof)
  {
    if values == [] {
      return EMPTY_PROOF;
    }
    hide Accepts, Walk, Challenges, Selected, SumOf, ProverResultOk, Pow2Nat;
    var ell := CeilLog2AtLeast1(|values|);
    var tr := new Transcript(hash);
    tr.log := bound;
    var claimed := AddUp(values);
    SelectorIsRegular();
    hide Regular, SelectorOracle;
    var result, final, honest := RunSumcheckProver(tr, SelectorOracle(), Selector(values, ell, []), claimed);
    SelectorNeverFails(values, ell, hash, Running(bound, claimed), result, honest, Running(tr.log, final));
    proof := UnificationProof(claimed, result.rounds, result.challenges);
  }

  /** What the verifier of the unification checks. */
  ghost predicate UnificationHolds(hash: Hash, bound: seq<Msg>, values: seq<K>, proof: UnificationProof) {
    var start := Running(bound, proof.claimedSum);
    if values == [] then proof == EMPTY_PROOF
    else
      && SelectorBits(|values|, |proof.rounds|)
      && proof.claimedSum == SumOf(values)
      && Accepts(hash, start, 1, proof.rounds)
      && proof.point == Challenges(hash, start, proof.rounds)
      && Walk(hash, start, proof.rounds).sum == Selected(values, proof.point, |values|)
  }

  ghost predicate SelectorBits(n: nat, ell: nat) {
    ell >= 1 && n <= Pow2Nat(ell) && (ell > 1 ==> Pow2Nat(ell - 1) < n)
  }

  lemma SelectorBitsUnique(n: nat, a: nat, b: nat)
    requires SelectorBits(n, a) && SelectorBits(n, b)
    ensures a == b
  {
    if a < b {
      Pow2Grows(a, b - 1);
    } else if b < a {
      Pow2Grows(b, a - 1);
    }
  }

  lemma {:induction false} Pow2Grows(a: nat, b: nat)
    requires a <= b
    ensures Pow2Nat(a) <= Pow2Nat(b)
    decreases b - a
  {
    if a < b {
      Pow2Grows(a + 1, b);
    }
  }

  /** `verify_opening_unification`: accepts exactly the proofs that hold. */
  method VerifyUnification(hash: Hash, bound: seq<Msg>, values: seq<K>, proof: UnificationProof) returns (v: Verdict)
    ensures v.Accepted? <==> UnificationHolds(hash, bound, values, proof)
    ensures v.ProofNotEmpty? ==> values == [] && proof != EMPTY_PROOF
    ensures v.WrongRoundCount? ==> values != [] && !SelectorBits(|values|, |proof.rounds|)
    ensures v.WrongClaimedSum? ==> SelectorBits(|values|, |proof.rounds|) && proof.claimedSum != SumOf(values)
    ensures v.RoundsRejected? ==>
      proof.claimedSum == SumOf(values) && !Accepts(hash, Running(bound, proof.claimedSum), 1, proof.rounds)
    ensures var start := Running(bound, proof.claimedSum);
      && (v.WrongPoint? ==>
            Accepts(hash, start, 1, proof.rounds) && proof.point != Challenges(hash, start, proof.rounds))
      && (v.WrongFinalValue? ==>
            proof.point == Challenges(hash, start, proof.rounds)
            && Walk(hash, start, proof.rounds).sum != Selected(values, proof.point, |values|))
  {
    if values == [] {
      if proof.claimedSum == KZero && proof.rounds == [] && proof.point == [] {
        return Accepted;
      }
      return ProofNotEmpty;
    }
    hide Accepts, Walk, Challenges, Selected, SumOf;
    var ell := CeilLog2AtLeast1(|values|);
    if |proof.rounds| != ell {
      if SelectorBits(|values|, |proof.rounds|) {
        SelectorBitsUnique(|values|, |proof.rounds|, ell);
      }
      return WrongRoundCount;
    }
    hide SelectorBits, Pow2Nat, VerifierAt;
    var expected := AddUp(values);
    if proof.claimedSum != expected {
      return WrongClaimedSum;
    }
    var tr := new Transcript(hash);
    tr.log := bound;
    var challenges, final, ok := VerifySumcheckRounds(tr, 1, proof.claimedSum, proof.rounds);
    if !ok {
      return RoundsRejected;
    }
    if proof.point != challenges {
      return WrongPoint;
    }
    var expectedFinal := EvalAtPoint(values, proof.point);
    if final != expectedFinal {
      return WrongFinalValue;
    }
    v := Accepted;
  }

  /** What the prover outputs, the verifier accepts, for every list of group values. */
  method ProveThenVerifyUnification(hash: Hash, bound: seq<Msg>, values: seq<K>) returns (proof: UnificationProof, v: Verdict)
    ensures v == Accepted
    ensures values != [] ==> proof.claimedSum == SumOf(values) && |values| <= Pow2Nat(|proof.point|)
    ensures values != [] ==>
      Walk(hash, Running(bound, proof.claimedSum), proof.rounds).sum == Selected(values, proof.point, |values|)
  {
    hide Accepts, Walk, Selected, SumOf;
    proof := ProveUnification(hash, bound, values);
    v := VerifyUnification(hash, bound, values, proof);
  }

  // ----- tensor points: the same weights in place -----

  lemma {:induction false} BitOfBlock(k: nat, i: nat, j: nat)
    requires j < Pow2Nat(i)
    ensures !BitAt(2 * Pow2Nat(i) * k + j, i)
    ensures BitAt(2 * Pow2Nat(i) * k + Pow2Nat(i) + j, i)
    decreases i
  {
    if i == 0 {
      assert 2 * Pow2Nat(0) * k == 2 * k;
    } else {
      BitOfBlock(k, i - 1, j / 2);
      HalveBlock(Pow2Nat(i - 1), k, j);
    }
  }

  lemma HalveBlock(p: nat, k: nat, j: nat)
    ensures (2 * (2 * p) * k + j) / 2 == 2 * p * k + j / 2
    ensures (2 * (2 * p) * k + 2 * p + j) / 2 == 2 * p * k + p + j / 2
  {
    var s := p * k;
    assert 2 * (2 * p) * k == 4 * s && 2 * p * k == 2 * s;
  }

  method ScaleRange(out: array<K>, lo: nat, hi: nat, c: K)
    requires lo <= hi <= out.Length
    modifies out
    ensures forall g :: 0 <= g < out.Length ==> out[g] == if lo <= g < hi then KMul(old(out[g]), c) else old(out[g])
  {
    for j := lo to hi
      invariant forall g :: 0 <= g < out.Length ==>
        out[g] == if lo <= g < j then KMul(old(out[g]), c) else old(out[g])
    {
      out[j] := KMul(out[j], c);
    }
  }

  /** `tensor_point`: entry g is the weight of g. */
  method TensorPoint(r: seq<K>) returns (out: array<K>)
    ensures fresh(out) && out.Length == Pow2Nat(|r|)
    ensures forall g :: 0 <= g < out.Length ==> out[g] == Weight(g, r)
  {
    hide KMul, KSub, BitAt;
    var ell := |r|;
    out := new K[Pow2Nat(ell)](i => KOne);
    for i := 0 to ell
      invariant fresh(out) && out.Length == Pow2Nat(ell)
      invariant forall g :: 0 <= g < out.Length ==> out[g] == Weight(g, r[..i])
    {
      TensorStep(out, r, i);
    }
    assert r[..ell] == r;
  }

  /** One coordinate of `tensor_point`, block by block. */
  method TensorStep(out: array<K>, r: seq<K>, i: nat)
    requires i < |r| && out.Length == Pow2Nat(|r|)
    requires forall g :: 0 <= g < out.Length ==> out[g] == Weight(g, r[..i])
    modifies out
    ensures forall g :: 0 <= g < out.Length ==> out[g] == Weight(g, r[..i + 1])
  {
    hide KMul, KSub, BitAt, Weight;
    var stride, block := Pow2Nat(i), Pow2Nat(|r| - i - 1);
    BlocksFill(|r|, i);
    var idx := 0;
    for k := 0 to block
      invariant idx == 2 * stride * k
      invariant forall g :: 0 <= g < out.Length ==> out[g] == Weight(g, if g < idx then r[..i + 1] else r[..i])
    {
      BlockFits(k, block, stride);
      ghost var before := out[..];
      ScaleRange(out, idx, idx + stride, KSub(KOne, r[i]));
      ScaleRange(out, idx + stride, idx + 2 * stride, r[i]);
      forall g | idx <= g < idx + 2 * stride
        ensures out[g] == Weight(g, r[..i + 1])
      {
        assert before[g] == Weight(g, r[..i]);
        BlockWeight(k, i, g, r);
      }
      idx := idx + 2 * stride;
    }
  }

  lemma BlockFits(k: nat, block: nat, stride: nat)
    requires k < block
    ensures 2 * stride * k + 2 * stride == 2 * stride * (k + 1) <= 2 * stride * block
  {
    var width := 2 * stride;
    MulOrder(k + 1, block, width);
    assert width * (k + 1) == width * k + width;
  }

  lemma {:induction false} BlocksFill(ell: nat, i: nat)
    requires i < ell
    ensures 2 * Pow2Nat(i) * Pow2Nat(ell - i - 1) == Pow2Nat(ell)
    decreases i
  {
    if i != 0 {
      BlocksFill(ell - 1, i - 1);
      var p, q := Pow2Nat(i - 1), Pow2Nat(ell - i - 1);
      assert 2 * (2 * p) * q == 2 * (2 * p * q);
    }
  }

  lemma BlockWeight(k: nat, i: nat, g: nat, r: seq<K>)
    requires i < |r|
    requires 2 * Pow2Nat(i) * k <= g < 2 * Pow2Nat(i) * k + 2 * Pow2Nat(i)
    ensures Weight(g, r[..i + 1])
         == KMul(Weight(g, r[..i]), if g < 2 * Pow2Nat(i) * k + Pow2Nat(i) then KSub(KOne, r[i]) else r[i])
  {
    hide KMul, KSub, BitAt;
    var j := g - 2 * Pow2Nat(i) * k;
    BitOfBlock(k, i, if j < Pow2Nat(i) then j else j - Pow2Nat(i));
    assert r[..i + 1] == r[..i] + [r[i]];
    WeightAppend(g, r[..i], r[i]);
  }

  // ----- the weights are the multilinear basis -----

  /** The point of the cube that selects h. */
  function CubePoint(h: nat, ell: nat): (r: seq<K>)
    ensures |r| == ell
  {
    seq(ell, i requires 0 <= i < ell => if BitAt(h, i) then KOne else KZero)
  }

  ghost predicate Agree(g: nat, h: nat, n: nat) {
    forall i :: 0 <= i < n ==> BitAt(g, i) == BitAt(h, i)
  }

  lemma {:induction false} SameBits(g: nat, h: nat, ell: nat)
    requires g < Pow2Nat(ell) && h < Pow2Nat(ell)
    requires Agree(g, h, ell)
    ensures g == h
    decreases ell
  {
    if ell != 0 {
      forall i | 0 <= i < ell - 1
        ensures BitAt(g / 2, i) == BitAt(h / 2, i)
      {
        assert BitAt(g, i + 1) == BitAt(h, i + 1);
      }
      SameBits(g / 2, h / 2, ell - 1);
      assert BitAt(g, 0) == BitAt(h, 0);
    }
  }

  lemma {:induction false} WeightOnCube(g: nat, h: nat, ell: nat, n: nat)
    requires n <= ell
    ensures Weight(g, CubePoint(h, ell)[..n])
         == if Agree(g, h, n) then KOne else KZero
  {
    hide KMul, BitAt;
    if n != 0 {
      WeightOnCube(g, h, ell, n - 1);
      var r := CubePoint(h, ell);
      assert r[..n] == r[..n - 1] + [r[n - 1]];
      WeightAppend(g, r[..n - 1], r[n - 1]);
      assert KSub(KOne, KZero) == KOne && KSub(KOne, KOne) == KZero;
      KMulOne(KOne);
      KMulOne(KZero);
    }
  }

  /** On the cube the selection returns the value it selects, so it is the multilinear extension. */
  lemma SelectedOnCube(values: seq<K>, h: nat, ell: nat)
    requires h < |values| <= Pow2Nat(ell)
    ensures Selected(values, CubePoint(h, ell), |values|) == values[h]
  {
    SelectedOnCubeUpTo(values, h, ell, |values|);
  }

  lemma {:induction false} SelectedOnCubeUpTo(values: seq<K>, h: nat, ell: nat, n: nat)
    requires h < |values| <= Pow2Nat(ell) && n <= |values|
    ensures Selected(values, CubePoint(h, ell), n) == if h < n then values[h] else KZero
  {
    hide KMul, KAdd, Weight, BitAt;
    if n != 0 {
      SelectedOnCubeUpTo(values, h, ell, n - 1);
      WeightOnCube(n - 1, h, ell, ell);
      var r := CubePoint(h, ell);
      assert r[..ell] == r;
      if Agree(n - 1, h, ell) {
        SameBits(n - 1, h, ell);
      }
      KMulOne(values[n - 1]);
      KAddZero(values[n - 1]);
      KAddZero(if h < n - 1 then values[h] else KZero);
    }
  }

  // ----- grouping of claims -----

  /** `build_reduction_groups`: claim ranges; `keys` holds what two claims of a group must share. */
  method BuildReductionGroups<T(==)>(keys: seq<T>) returns (groups: seq<(nat, nat)>)
    ensures AreMaximalRuns(keys, groups, |keys|)
  {
    hide AreMaximalRuns;
    groups := [];
    var start := 0;
    NoRuns(keys);
    while start < |keys|
      invariant start <= |keys|
      invariant AreMaximalRuns(keys, groups, start)
      invariant 0 < start < |keys| ==> keys[start] != keys[start - 1]
    {
      var end := start + 1;
      while end < |keys| && keys[end] == keys[start]
        invariant start < end <= |keys|
        invariant forall i :: start <= i < end ==> keys[i] == keys[start]
      {
        end := end + 1;
      }
      RunsAppend(keys, groups, start, end);
      groups := groups + [(start, end)];
      start := end;
    }
  }

  lemma NoRuns<T>(keys: seq<T>)
    ensures AreMaximalRuns(keys, [], 0)
  {}

  lemma RunsAppend<T>(keys: seq<T>, groups: seq<(nat, nat)>, start: nat, end: nat)
    requires start < end <= |keys| && AreMaximalRuns(keys, groups, start)
    requires 0 < start ==> keys[start] != keys[start - 1]
    requires forall i :: start <= i < end ==> keys[i] == keys[start]
    ensures AreMaximalRuns(keys, groups + [(start, end)], end)
  {
    var n := |groups|;
    var after := groups + [(start, end)];
    assert forall k :: 0 <= k < n ==> after[k] == groups[k];
    forall k, i | 0 <= k <= n && after[k].0 <= i < after[k].1
      ensures keys[i] == keys[after[k].0]
    {}
  }

  /** The ranges cover the first n claims in order, each uniform, neighbours different. */
  ghost predicate AreMaximalRuns<T>(keys: seq<T>, groups: seq<(nat, nat)>, n: nat) {
    && n <= |keys|
    && (if groups == [] then n == 0 else groups[0].0 == 0 && groups[|groups| - 1].1 == n)
    && (forall k :: 0 <= k < |groups| ==> IsRun(keys, groups[k], n))
    && (forall k :: 0 < k < |groups| ==> Separates(keys, groups[k - 1], groups[k]))
  }

  ghost predicate IsRun<T>(keys: seq<T>, g: (nat, nat), n: nat)
    requires n <= |keys|
  {
    g.0 < g.1 <= n && forall i :: g.0 <= i < g.1 ==> keys[i] == keys[g.0]
  }

  ghost predicate Separates<T>(keys: seq<T>, g: (nat, nat), h: (nat, nat)) {
    0 < g.1 == h.0 < |keys| && keys[h.0] != keys[h.0 - 1]
  }
}
