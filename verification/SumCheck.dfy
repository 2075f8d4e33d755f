/** The sum-check protocol over K: prover and verifier loops, completeness and soundness. */
module SumCheck {
  import opened Field
  import opened ExtField
  import opened KPolynomials

  // ----- transcript -----

  /** The transcript labels used here, each for its own byte string. */
  datatype Tag =
    | RoundCoeff | RoundDraw
    | ClaimsLen | ClaimLabel | ClaimIdx | RoundIdx | BatchPolys | BatchDraw

  datatype Msg =
    | Fields(tag: Tag, data: seq<Fq>)
    | Message(tag: Tag, bytes: seq<int>)
    | Squeeze(tag: Tag, count: nat)

  /** The transcript as an arbitrary function of its history: two field elements per challenge. */
  type Hash = seq<Msg> -> (Fq, Fq)

  class Transcript {
    const hash: Hash
    var log: seq<Msg>

    constructor (hash: Hash)
      ensures this.hash == hash && log == []
    {
      this.hash := hash;
      log := [];
    }

    method AppendFields(tag: Tag, data: seq<Fq>)
      modifies this`log
      ensures log == old(log) + [Fields(tag, data)]
    {
      log := log + [Fields(tag, data)];
    }

    method AppendMessage(tag: Tag, bytes: seq<int>)
      modifies this`log
      ensures log == old(log) + [Message(tag, bytes)]
    {
      log := log + [Message(tag, bytes)];
    }

    /** Two squeezed field elements combined into one element of K. */
    method ChallengeK(tag: Tag) returns (r: K)
      modifies this`log
      ensures r == ChallengeFrom(hash, old(log))
      ensures log == old(log) + [Squeeze(tag, 2)]
    {
      var c := hash(log);
      log := log + [Squeeze(tag, 2)];
      r := K(c.0, c.1);
    }
  }

  function ChallengeFrom(hash: Hash, log: seq<Msg>): K {
    var c := hash(log);
    K(c.0, c.1)
  }

  /** Coefficients flattened to base-field pairs. */
  function Pack(c: KPoly): seq<Fq> {
    if c == [] then [] else [c[0].re, c[0].im] + Pack(c[1..])
  }

  // ----- one run of the verifier, as functions of the messages -----

  datatype Running = Running(log: seq<Msg>, sum: K)

  function RoundLog(log: seq<Msg>, c: KPoly): seq<Msg> {
    log + [Fields(RoundCoeff, Pack(c))]
  }

  function RoundChallenge(hash: Hash, log: seq<Msg>, c: KPoly): K {
    ChallengeFrom(hash, RoundLog(log, c))
  }

  function RoundStep(hash: Hash, p: Running, c: KPoly): Running {
    Running(RoundLog(p.log, c) + [Squeeze(RoundDraw, 2)], Eval(c, RoundChallenge(hash, p.log, c)))
  }

  /** Transcript and running sum after the given round polynomials. */
  function Walk(hash: Hash, start: Running, rounds: seq<KPoly>): Running {
    if rounds == [] then start
    else
      var n := |rounds| - 1;
      RoundStep(hash, Walk(hash, start, rounds[..n]), rounds[n])
  }

  /** The challenge of round i. */
  function ChallengeAt(hash: Hash, start: Running, rounds: seq<KPoly>, i: nat): K
    requires i < |rounds|
  {
    RoundChallenge(hash, Walk(hash, start, rounds[..i]).log, rounds[i])
  }

  function Challenges(hash: Hash, start: Running, rounds: seq<KPoly>): (r: seq<K>)
    ensures |r| == |rounds|
  {
    seq(|rounds|, i requires 0 <= i < |rounds| => ChallengeAt(hash, start, rounds, i))
  }

  ghost predicate RoundAccepted(bound: nat, sum: K, c: KPoly) {
    |c| <= bound + 1 && KAdd(Eval(c, KZero), Eval(c, KOne)) == sum
  }

  /** All degree and sum checks of the verifier. */
  ghost predicate Accepts(hash: Hash, start: Running, bound: nat, rounds: seq<KPoly>) {
    forall i :: 0 <= i < |rounds| ==> RoundAccepted(bound, Walk(hash, start, rounds[..i]).sum, rounds[i])
  }

  lemma WalkStep(hash: Hash, start: Running, rounds: seq<KPoly>, i: nat)
    requires i < |rounds|
    ensures Walk(hash, start, rounds[..i + 1]) == RoundStep(hash, Walk(hash, start, rounds[..i]), rounds[i])
    ensures Walk(hash, start, rounds[..0]) == start
  {
    assert rounds[..i + 1][..i] == rounds[..i];
  }

  lemma WalkEmpty(hash: Hash, start: Running, rounds: seq<KPoly>)
    ensures Walk(hash, start, rounds[..0]) == start
  {}

  /** The verifier after i accepted rounds. */
  ghost predicate VerifierAt(hash: Hash, start: Running, bound: nat, rounds: seq<KPoly>, i: nat,
                             challenges: seq<K>, now: Running)
  {
    && i == |challenges| <= |rounds|
    && now == Walk(hash, start, rounds[..i])
    && (forall k :: 0 <= k < i ==> challenges[k] == ChallengeAt(hash, start, rounds, k))
    && (forall k :: 0 <= k < i ==> RoundAccepted(bound, Walk(hash, start, rounds[..k]).sum, rounds[k]))
  }

  /** What the verifier returns: all challenges and the final sum, or the prefix before the first bad round. */
  ghost predicate VerifierResult(hash: Hash, start: Running, bound: nat, rounds: seq<KPoly>,
                                 challenges: seq<K>, now: Running, ok: bool)
  {
    && (ok <==> Accepts(hash, start, bound, rounds))
    && (ok ==> challenges == Challenges(hash, start, rounds) && now == Walk(hash, start, rounds))
    && (!ok ==> |challenges| < |rounds|)
    && (!ok ==> VerifierAt(hash, start, bound, rounds, |challenges|, challenges, now))
    && (!ok ==> !RoundAccepted(bound, now.sum, rounds[|challenges|]))
  }

  lemma VerifierStep(hash: Hash, start: Running, bound: nat, rounds: seq<KPoly>, challenges: seq<K>, now: Running)
    requires |challenges| < |rounds|
    requires VerifierAt(hash, start, bound, rounds, |challenges|, challenges, now)
    ensures var (i, c) := (|challenges|, rounds[|challenges|]);
            if RoundAccepted(bound, now.sum, c)
            then VerifierAt(hash, start, bound, rounds, i + 1,
                            challenges + [RoundChallenge(hash, now.log, c)], RoundStep(hash, now, c))
            else VerifierResult(hash, start, bound, rounds, challenges, now, false)
  {
    hide Eval, KAdd, Walk, RoundAccepted;
    WalkStep(hash, start, rounds, |challenges|);
  }

  lemma VerifierDone(hash: Hash, start: Running, bound: nat, rounds: seq<KPoly>, challenges: seq<K>, now: Running)
    requires VerifierAt(hash, start, bound, rounds, |rounds|, challenges, now)
    ensures VerifierResult(hash, start, bound, rounds, challenges, now, true)
  {
    assert rounds[..|rounds|] == rounds;
    hide Eval, KAdd, Walk, RoundAccepted;
  }

  /** `verify_sumcheck_rounds`. */
  method VerifySumcheckRounds(tr: Transcript, bound: nat, initialSum: K, rounds: seq<KPoly>)
    returns (challenges: seq<K>, sum: K, ok: bool)
    modifies tr`log
    ensures VerifierResult(tr.hash, Running(old(tr.log), initialSum), bound, rounds, challenges, Running(tr.log, sum), ok)
  {
    ghost var start := Running(tr.log, initialSum);
    challenges := [];
    sum := initialSum;
    WalkEmpty(tr.hash, start, rounds);
    assert VerifierAt(tr.hash, start, bound, rounds, 0, challenges, start);
    hide VerifierAt, VerifierResult, RoundAccepted, Pack, Eval;
    for i := 0 to |rounds|
      invariant |challenges| == i
      invariant VerifierAt(tr.hash, start, bound, rounds, i, challenges, Running(tr.log, sum))
    {
      VerifierStep(tr.hash, start, bound, rounds, challenges, Running(tr.log, sum));
      var accepted := CheckRound(bound, sum, rounds[i]);
      if !accepted {
        return challenges, sum, false;
      }
      tr.AppendFields(RoundCoeff, Pack(rounds[i]));
      var challenge := tr.ChallengeK(RoundDraw);
      challenges := challenges + [challenge];
      sum := PolyEvalK(rounds[i], challenge);
    }
    VerifierDone(tr.hash, start, bound, rounds, challenges, Running(tr.log, sum));
    ok := true;
  }

  /** Degree check, then the sum check. */
  method CheckRound(bound: nat, sum: K, c: KPoly) returns (ok: bool)
    ensures ok <==> RoundAccepted(bound, sum, c)
  {
    if |c| > bound + 1 {
      return false;
    }
    var eval0 := PolyEvalK(c, KZero);
    var eval1 := PolyEvalK(c, KOne);
    ok := KAdd(eval0, eval1) == sum;
  }

  // ----- oracles and the prover -----

  /** A round oracle as a state machine: any state type, any evaluation and folding functions. */
  datatype Oracle<!S> = Oracle(
    numRounds: S -> nat,
    degree: S -> nat,
    evalsAt: (S, seq<K>) -> (seq<K>, S),
    fold: (S, K) -> S)

  /** One value per point, and a degree for which the nodes 0..deg exist and include 0 and 1. */
  ghost predicate Regular<S(!new)>(o: Oracle<S>) {
    && (forall s, points :: |o.evalsAt(s, points).0| == |points|)
    && (forall s :: 1 <= o.degree(s) < Q)
  }

  /** The oracle after the given rounds. */
  function StateAfter<S(!new)>(o: Oracle<S>, s: S, hash: Hash, start: Running, rounds: seq<KPoly>): S
    requires forall t :: 1 <= o.degree(t) < Q
  {
    if rounds == [] then s
    else
      var n := |rounds| - 1;
      var t := StateAfter(o, s, hash, start, rounds[..n]);
      o.fold(o.evalsAt(t, Nodes(o.degree(t))).1, ChallengeAt(hash, start, rounds, n))
  }

  /** Round polynomial c carries the samples that the oracle in state s gives on 0..deg. */
  ghost predicate CarriesSamples<S(!new)>(o: Oracle<S>, s: S, c: KPoly)
    requires Regular(o)
  {
    var xs := Nodes(o.degree(s));
    |c| == |xs| && forall m :: 0 <= m < |xs| ==> Eval(c, xs[m]) == o.evalsAt(s, xs).0[m]
  }

  /** A transcript that follows the oracle round by round. */
  ghost predicate Honest<S(!new)>(o: Oracle<S>, s: S, hash: Hash, start: Running, rounds: seq<KPoly>)
    requires Regular(o)
  {
    forall i :: 0 <= i < |rounds| ==> CarriesSamples(o, StateAfter(o, s, hash, start, rounds[..i]), rounds[i])
  }

  /** The value the prover compares with its running sum. */
  ghost function SampleSum<S(!new)>(o: Oracle<S>, s: S): K
    requires Regular(o)
  {
    var ys := o.evalsAt(s, Nodes(o.degree(s))).0;
    KAdd(ys[0], ys[1])
  }

  datatype ProverResult =
    | Proved(rounds: seq<KPoly>, challenges: seq<K>)
    | Invariant(round: nat, expected: K, actual: K)

  lemma SamplesAtZeroOne<S(!new)>(o: Oracle<S>, s: S, c: KPoly)
    requires Regular(o) && CarriesSamples(o, s, c)
    ensures KAdd(Eval(c, KZero), Eval(c, KOne)) == SampleSum(o, s)
  {
    var xs := Nodes(o.degree(s));
    assert xs[0] == KZero && xs[1] == KOne;
    hide Eval;
  }

  lemma NodesDistinct(deg: nat)
    requires deg < Q
    ensures Distinct(Nodes(deg))
  {}

  /** In every round the samples of the oracle sum to the running sum. */
  ghost predicate KeepsSum<S(!new)>(o: Oracle<S>, s: S, hash: Hash, start: Running, rounds: seq<KPoly>)
    requires Regular(o)
  {
    forall i :: 0 <= i < |rounds| ==>
      SampleSum(o, StateAfter(o, s, hash, start, rounds[..i])) == Walk(hash, start, rounds[..i]).sum
  }

  /** The prover after some honest rounds. */
  ghost predicate ProverAt<S(!new)>(o: Oracle<S>, s0: S, hash: Hash, start: Running, rounds: seq<KPoly>,
                                    challenges: seq<K>, now: Running, s: S)
    requires Regular(o)
  {
    && Honest(o, s0, hash, start, rounds) && KeepsSum(o, s0, hash, start, rounds)
    && challenges == Challenges(hash, start, rounds)
    && now == Walk(hash, start, rounds) && s == StateAfter(o, s0, hash, start, rounds)
  }

  /**
   What the prover returns: either every round follows the oracle and keeps the running sum, or the
   first round whose samples do not.
   */
  ghost predicate ProverResultOk<S(!new)>(o: Oracle<S>, s0: S, hash: Hash, start: Running, r: ProverResult,
                                          honest: seq<KPoly>, now: Running)
    requires Regular(o)
  {
    var s := StateAfter(o, s0, hash, start, honest);
    && ProverAt(o, s0, hash, start, honest, Challenges(hash, start, honest), now, s)
    && match r
       case Proved(rounds, challenges) =>
         rounds == honest && |honest| == o.numRounds(s0) && challenges == Challenges(hash, start, honest)
       case Invariant(round, expected, actual) =>
         round == |honest| < o.numRounds(s0) && expected == now.sum && actual == SampleSum(o, s) && actual != expected
  }

  lemma ProverStep<S(!new)>(o: Oracle<S>, s0: S, hash: Hash, start: Running, rounds: seq<KPoly>,
                            challenges: seq<K>, now: Running, s: S, c: KPoly)
    requires Regular(o) && ProverAt(o, s0, hash, start, rounds, challenges, now, s)
    requires CarriesSamples(o, s, c) && SampleSum(o, s) == now.sum
    ensures var r := RoundChallenge(hash, now.log, c);
            ProverAt(o, s0, hash, start, rounds + [c], challenges + [r], RoundStep(hash, now, c),
                     o.fold(o.evalsAt(s, Nodes(o.degree(s))).1, r))
  {
    hide Eval, KAdd, CarriesSamples, SampleSum, Nodes;
    HonestAppend(o, s0, hash, start, rounds, c);
    ChallengesAppend(hash, start, rounds, c);
    var after, n := rounds + [c], |rounds|;
    assert after[..n] == rounds;
    hide Honest, KeepsSum, Challenges;
  }

  lemma ChallengesAppend(hash: Hash, start: Running, rounds: seq<KPoly>, c: KPoly)
    ensures Challenges(hash, start, rounds + [c])
         == Challenges(hash, start, rounds) + [RoundChallenge(hash, Walk(hash, start, rounds).log, c)]
    ensures ChallengeAt(hash, start, rounds + [c], |rounds|) == RoundChallenge(hash, Walk(hash, start, rounds).log, c)
  {
    hide Walk, RoundChallenge;
    var after, n := rounds + [c], |rounds|;
    assert after[..n] == rounds;
    assert forall k :: 0 <= k < n ==> after[..k] == rounds[..k];
  }

  lemma HonestAppend<S(!new)>(o: Oracle<S>, s0: S, hash: Hash, start: Running, rounds: seq<KPoly>, c: KPoly)
    requires Regular(o) && Honest(o, s0, hash, start, rounds) && KeepsSum(o, s0, hash, start, rounds)
    requires var s := StateAfter(o, s0, hash, start, rounds);
             CarriesSamples(o, s, c) && SampleSum(o, s) == Walk(hash, start, rounds).sum
    ensures Honest(o, s0, hash, start, rounds + [c]) && KeepsSum(o, s0, hash, start, rounds + [c])
  {
    hide Walk, StateAfter, CarriesSamples, SampleSum;
    var after, n := rounds + [c], |rounds|;
    assert after[..n] == rounds;
    assert forall k :: 0 <= k < n ==> after[..k] == rounds[..k];
  }

  /** `run_sumcheck_prover`. */
  method RunSumcheckProver<S(!new)>(tr: Transcript, o: Oracle<S>, s0: S, initialSum: K)
    returns (r: ProverResult, final: K, ghost honest: seq<KPoly>)
    requires Regular(o)
    modifies tr`log
    ensures ProverResultOk(o, s0, tr.hash, Running(old(tr.log), initialSum), r, honest, Running(tr.log, final))
  {
    ghost var start := Running(tr.log, initialSum);
    var s := s0;
    var rounds: seq<KPoly> := [];
    var challenges: seq<K> := [];
    final := initialSum;
    hide Eval, KAdd;
    for i := 0 to o.numRounds(s0)
      invariant |rounds| == i
      invariant ProverAt(o, s0, tr.hash, start, rounds, challenges, Running(tr.log, final), s)
    {
      hide Honest, KeepsSum;
      var deg := o.degree(s);
      var (ys, after) := o.evalsAt(s, Nodes(deg));
      var sumAt01 := KAdd(ys[0], ys[1]);
      if sumAt01 != final {
        return Invariant(i, final, sumAt01), final, rounds;
      }
      var coeffs := InterpolateOnNodes(deg, ys);
      ProverStep(o, s0, tr.hash, start, rounds, challenges, Running(tr.log, final), s, coeffs);
      hide ProverAt;
      tr.AppendFields(RoundCoeff, Pack(coeffs));
      var challenge := tr.ChallengeK(RoundDraw);
      rounds := rounds + [coeffs];
      challenges := challenges + [challenge];
      final := PolyEvalK(coeffs, challenge);
      s := o.fold(after, challenge);
    }
    r := Proved(rounds, challenges);
    honest := rounds;
  }

  /** The plan of the round, then the coefficients through the samples. */
  method InterpolateOnNodes(deg: nat, ys: seq<K>) returns (coeffs: KPoly)
    requires deg < Q && |ys| == deg + 1
    ensures |coeffs| == deg + 1
    ensures forall m :: 0 <= m <= deg ==> Eval(coeffs, Nodes(deg)[m]) == ys[m]
  {
    hide Eval;
    var plan := BuildPlan(deg);
    coeffs := InterpolateWithPlan(plan, ys);
  }

  /** Completeness: the verifier accepts every honest transcript that kept the running sum. */
  lemma Completeness<S(!new)>(o: Oracle<S>, s: S, hash: Hash, start: Running, rounds: seq<KPoly>, bound: nat)
    requires Regular(o) && Honest(o, s, hash, start, rounds) && KeepsSum(o, s, hash, start, rounds)
    requires forall t :: o.degree(t) <= bound
    ensures Accepts(hash, start, bound, rounds)
  {
    hide Eval, KAdd;
    forall i | 0 <= i < |rounds|
      ensures RoundAccepted(bound, Walk(hash, start, rounds[..i]).sum, rounds[i])
    {
      SamplesAtZeroOne(o, StateAfter(o, s, hash, start, rounds[..i]), rounds[i]);
    }
  }

  /** Prover and verifier on equal transcripts: same challenges, same final value, accepted. */
  method ProveThenVerify<S(!new)>(hash: Hash, o: Oracle<S>, s0: S, initialSum: K, bound: nat)
    returns (r: ProverResult, final: K, challenges: seq<K>, sum: K, ok: bool)
    requires Regular(o) && forall t :: o.degree(t) <= bound
    ensures r.Proved? ==> ok && challenges == r.challenges && sum == final
  {
    var ptr := new Transcript(hash);
    var vtr := new Transcript(hash);
    ghost var honest;
    r, final, honest := RunSumcheckProver(ptr, o, s0, initialSum);
    challenges, sum, ok := [], initialSum, false;
    if r.Proved? {
      Completeness(o, s0, hash, Running([], initialSum), honest, bound);
      challenges, sum, ok := VerifySumcheckRounds(vtr, bound, initialSum, r.rounds);
    }
  }

  /** The oracle and the transcript leave the prover no choice. */
  lemma {:induction false} HonestIsUnique<S(!new)>(o: Oracle<S>, s: S, hash: Hash, start: Running,
                                                   a: seq<KPoly>, b: seq<KPoly>)
    requires Regular(o) && |a| == |b|
    requires Honest(o, s, hash, start, a) && Honest(o, s, hash, start, b)
    ensures a == b
  {
    hide Walk, Nodes, CarriesSamples, StateAfter;
    if a != [] {
      var n := |a| - 1;
      assert forall i :: 0 <= i < n ==> a[..n][..i] == a[..i] && b[..n][..i] == b[..i];
      HonestIsUnique(o, s, hash, start, a[..n], b[..n]);
      hide Honest;
      SamplesFix(o, StateAfter(o, s, hash, start, a[..n]), a[n], b[n]);
      assert a == a[..n] + [a[n]] && b == b[..n] + [b[n]];
    }
  }

  lemma SamplesFix<S(!new)>(o: Oracle<S>, s: S, c: KPoly, e: KPoly)
    requires Regular(o) && CarriesSamples(o, s, c) && CarriesSamples(o, s, e)
    ensures c == e
  {
    NodesDistinct(o.degree(s));
    hide Eval, Nodes;
    SamplesDetermine(Nodes(o.degree(s)), c, e);
  }

  // ----- soundness -----

  /** The sum of g over prefix || {0,1}^m || suffix. */
  function SumCube(g: seq<K> -> K, prefix: seq<K>, suffix: seq<K>, m: nat): K
    decreases m
  {
    if m == 0 then g(prefix + suffix)
    else KAdd(SumCube(g, prefix, [KZero] + suffix, m - 1), SumCube(g, prefix, [KOne] + suffix, m - 1))
  }

  /** t is the polynomial, with d + 1 coefficients, of x in the sum of g over prefix || x || {0,1}^m || suffix. */
  ghost predicate IsRoundPoly(t: KPoly, d: nat, g: seq<K> -> K, prefix: seq<K>, suffix: seq<K>, m: nat) {
    |t| == d + 1 && forall x :: Eval(t, x) == SumCube(g, prefix + [x], suffix, m)
  }

  /** g has degree at most d in each of its n variables. */
  ghost predicate DegreeBounded(g: seq<K> -> K, n: nat, d: nat) {
    forall prefix: seq<K>, suffix: seq<K> :: |prefix| + 1 + |suffix| == n ==>
      exists t :: IsRoundPoly(t, d, g, prefix, suffix, 0)
  }

  /** The true round polynomial exists: summing out later variables keeps the degree. */
  lemma {:induction false} TruePolynomial(g: seq<K> -> K, n: nat, d: nat, prefix: seq<K>, suffix: seq<K>, m: nat)
    returns (t: KPoly)
    requires DegreeBounded(g, n, d) && |prefix| + 1 + m + |suffix| == n
    ensures IsRoundPoly(t, d, g, prefix, suffix, m)
    decreases m
  {
    hide Eval, KAdd;
    if m == 0 {
      t :| IsRoundPoly(t, d, g, prefix, suffix, 0);
    } else {
      var a := TruePolynomial(g, n, d, prefix, [KZero] + suffix, m - 1);
      var b := TruePolynomial(g, n, d, prefix, [KOne] + suffix, m - 1);
      t := PolyAdd(a, b);
      forall x
        ensures Eval(t, x) == SumCube(g, prefix + [x], suffix, m)
      {
        EvalAdd(a, b, x);
      }
    }
  }

  /** Summing out the first free variable: the round identity t(0) + t(1). */
  lemma {:induction false} SumCubeFirst(g: seq<K> -> K, prefix: seq<K>, suffix: seq<K>, m: nat)
    ensures SumCube(g, prefix, suffix, m + 1)
         == KAdd(SumCube(g, prefix + [KZero], suffix, m), SumCube(g, prefix + [KOne], suffix, m))
    decreases m
  {
    if m == 0 {
      assert prefix + ([KZero] + suffix) == prefix + [KZero] + suffix;
      assert prefix + ([KOne] + suffix) == prefix + [KOne] + suffix;
    } else {
      SumCubeFirst(g, prefix, [KZero] + suffix, m - 1);
      SumCubeFirst(g, prefix, [KOne] + suffix, m - 1);
      KAddSwap(SumCube(g, prefix + [KZero], [KZero] + suffix, m - 1),
               SumCube(g, prefix + [KOne], [KZero] + suffix, m - 1),
               SumCube(g, prefix + [KZero], [KOne] + suffix, m - 1),
               SumCube(g, prefix + [KOne], [KOne] + suffix, m - 1));
    }
    hide KAdd;
  }

  /** The checks a verifier makes on rounds p with challenges r, whatever drew the challenges. */
  ghost predicate Chain(bound: nat, rounds: seq<KPoly>, r: seq<K>, sums: seq<K>) {
    && |rounds| == |r| && |sums| == |r| + 1
    && forall i :: 0 <= i < |r| ==> RoundAccepted(bound, sums[i], rounds[i]) && sums[i + 1] == Eval(rounds[i], r[i])
  }

  /**
   Round i is where the lie is accepted: the sent polynomial is not the true one t, yet both agree
   on the challenge; both have at most d + 1 coefficients.
   */
  ghost predicate LuckyChallenge(g: seq<K> -> K, d: nat, rounds: seq<KPoly>, r: seq<K>, i: nat, t: KPoly) {
    && i < |r| == |rounds|
    && IsRoundPoly(t, d, g, r[..i], [], |r| - i - 1)
    && |rounds[i]| <= d + 1
    && (Eval(rounds[i], KZero) != Eval(t, KZero) || Eval(rounds[i], KOne) != Eval(t, KOne))
    && Eval(rounds[i], r[i]) == Eval(t, r[i])
  }

  /** Soundness of the chain of checks: a wrong initial sum and a right final value need a lucky challenge. */
  lemma ChainSoundness(g: seq<K> -> K, d: nat, rounds: seq<KPoly>, r: seq<K>, sums: seq<K>)
    returns (i: nat, t: KPoly)
    requires DegreeBounded(g, |r|, d)
    requires Chain(d, rounds, r, sums)
    requires sums[|r|] == g(r)
    requires sums[0] != SumCube(g, [], [], |r|)
    ensures LuckyChallenge(g, d, rounds, r, i, t)
  {
    hide Eval, KAdd, DegreeBounded, IsRoundPoly;
    var n := |r|;
    i := 0;
    assert r[..0] == [] && r[..n] == r && r + [] == r;
    assert SumCube(g, r[..n], [], 0) == g(r);
    while sums[i + 1] != SumCube(g, r[..i + 1], [], n - i - 1)
      invariant i < n
      invariant sums[i] != SumCube(g, r[..i], [], n - i)
      decreases n - i
    {
      i := i + 1;
    }
    t := TruePolynomial(g, n, d, r[..i], [], n - i - 1);
    LieAccepted(g, d, rounds, r, sums, i, t);
  }

  /** From a wrong claim before round i to a right one after it. */
  lemma LieAccepted(g: seq<K> -> K, d: nat, rounds: seq<KPoly>, r: seq<K>, sums: seq<K>, i: nat, t: KPoly)
    requires Chain(d, rounds, r, sums) && i < |r|
    requires sums[i] != SumCube(g, r[..i], [], |r| - i)
    requires sums[i + 1] == SumCube(g, r[..i + 1], [], |r| - i - 1)
    requires IsRoundPoly(t, d, g, r[..i], [], |r| - i - 1)
    ensures LuckyChallenge(g, d, rounds, r, i, t)
  {
    hide Eval, KAdd, SumCube;
    SumCubeFirst(g, r[..i], [], |r| - i - 1);
    assert RoundAccepted(d, sums[i], rounds[i]) && sums[i + 1] == Eval(rounds[i], r[i]);
    assert r[..i + 1] == r[..i] + [r[i]];
  }

  /** A lucky challenge is one of at most d points fixed before the challenge is drawn. */
  lemma FewLuckyChallenges(g: seq<K> -> K, d: nat, rounds: seq<KPoly>, r: seq<K>, i: nat, t: KPoly, lucky: set<K>)
    requires LuckyChallenge(g, d, rounds, r, i, t)
    requires forall x :: x in lucky ==> Eval(rounds[i], x) == Eval(t, x)
    ensures |lucky| <= d
  {
    hide Eval;
    AgreementBound(rounds[i], t, d + 1,
                   if Eval(rounds[i], KZero) != Eval(t, KZero) then KZero else KOne, lucky);
  }

  /**
   Deterministic soundness of `verify_sumcheck_rounds`: for every g of degree at most d per variable
   and every prover message, if the verifier accepts, the final sum is g(r) and the initial sum is
   not the sum of g over the cube, then some challenge is lucky.
   */
  lemma Soundness(hash: Hash, start: Running, g: seq<K> -> K, d: nat, rounds: seq<KPoly>)
    returns (i: nat, t: KPoly)
    requires DegreeBounded(g, |rounds|, d)
    requires Accepts(hash, start, d, rounds)
    requires Walk(hash, start, rounds).sum == g(Challenges(hash, start, rounds))
    requires start.sum != SumCube(g, [], [], |rounds|)
    ensures LuckyChallenge(g, d, rounds, Challenges(hash, start, rounds), i, t)
  {
    hide Eval, KAdd, Walk, DegreeBounded;
    var n := |rounds|;
    WalkEmpty(hash, start, rounds);
    var sums := seq(n + 1, k requires 0 <= k <= n => Walk(hash, start, rounds[..k]).sum);
    assert rounds[..n] == rounds;
    forall k | 0 <= k < n
      ensures sums[k + 1] == Eval(rounds[k], Challenges(hash, start, rounds)[k])
    {
      WalkStep(hash, start, rounds, k);
    }
    i, t := ChainSoundness(g, d, rounds, Challenges(hash, start, rounds), sums);
  }
}
