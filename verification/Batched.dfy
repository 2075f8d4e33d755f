/** Batched sum-check: several claims, one challenge per round. */
module Batched {
  import opened Field
  import opened ExtField
  import opened KPolynomials
  import opened SumCheck

  /** The polynomials of one round, one per claim. */
  type Round = seq<KPoly>

  datatype Shared = Shared(log: seq<Msg>, sums: seq<K>)

  /** The claim schedule bound to the transcript before the first round: the number of claims, then the labels. */
  function BindClaims(log: seq<Msg>, count: nat, tags: seq<seq<int>>): seq<Msg> {
    BindFrom(log + [Message(ClaimsLen, [count])], tags, |tags|)
  }

  function BindFrom(log: seq<Msg>, tags: seq<seq<int>>, n: nat): seq<Msg>
    requires n <= |tags|
  {
    if n == 0 then log
    else BindFrom(log, tags, n - 1) + [Message(ClaimLabel, tags[n - 1]), Message(ClaimIdx, [n - 1])]
  }

  function PackFrom(polys: Round, n: nat): seq<Fq>
    requires n <= |polys|
  {
    if n == 0 then [Red(|polys|)]
    else
      var c := polys[n - 1];
      PackFrom(polys, n - 1) + [Red(n - 1), Red(|c|), if c == [] then 0 else 2] + Pack(c)
  }

  function RoundPrefix(log: seq<Msg>, i: nat, polys: Round): seq<Msg> {
    log + [Message(RoundIdx, [i])] + [Fields(BatchPolys, PackFrom(polys, |polys|))]
  }

  function SharedChallenge(hash: Hash, log: seq<Msg>, i: nat, polys: Round): K {
    ChallengeFrom(hash, RoundPrefix(log, i, polys))
  }

  function EvalAll(polys: Round, r: K): (v: seq<K>)
    ensures |v| == |polys|
  {
    seq(|polys|, c requires 0 <= c < |polys| => Eval(polys[c], r))
  }

  function SharedStep(hash: Hash, p: Shared, i: nat, polys: Round): Shared {
    Shared(RoundPrefix(p.log, i, polys) + [Squeeze(BatchDraw, 2)], EvalAll(polys, SharedChallenge(hash, p.log, i, polys)))
  }

  function BWalk(hash: Hash, start: Shared, rounds: seq<Round>): Shared {
    if rounds == [] then start
    else
      var n := |rounds| - 1;
      SharedStep(hash, BWalk(hash, start, rounds[..n]), n, rounds[n])
  }

  function BChallengeAt(hash: Hash, start: Shared, rounds: seq<Round>, i: nat): K
    requires i < |rounds|
  {
    SharedChallenge(hash, BWalk(hash, start, rounds[..i]).log, i, rounds[i])
  }

  function BChallenges(hash: Hash, start: Shared, rounds: seq<Round>): (r: seq<K>)
    ensures |r| == |rounds|
  {
    seq(|rounds|, i requires 0 <= i < |rounds| => BChallengeAt(hash, start, rounds, i))
  }

  /** All claims pass their checks in one round. */
  ghost predicate AllAccepted(bounds: seq<nat>, sums: seq<K>, polys: Round) {
    |polys| == |sums| == |bounds| && forall c :: 0 <= c < |polys| ==> RoundAccepted(bounds[c], sums[c], polys[c])
  }

  ghost predicate BAccepts(hash: Hash, start: Shared, bounds: seq<nat>, rounds: seq<Round>) {
    forall i :: 0 <= i < |rounds| ==> AllAccepted(bounds, BWalk(hash, start, rounds[..i]).sums, rounds[i])
  }

  lemma BWalkStep(hash: Hash, start: Shared, rounds: seq<Round>, i: nat)
    requires i < |rounds|
    ensures BWalk(hash, start, rounds[..i + 1]) == SharedStep(hash, BWalk(hash, start, rounds[..i]), i, rounds[i])
  {
    assert rounds[..i + 1][..i] == rounds[..i];
  }

  lemma BWalkEnds(hash: Hash, start: Shared, rounds: seq<Round>)
    ensures BWalk(hash, start, rounds[..0]) == start
    ensures rounds[..|rounds|] == rounds
  {}

  // ----- verifier -----

  /** The same rounds, claim by claim. */
  function RoundOf(perClaim: seq<seq<KPoly>>, i: nat): Round
    requires forall c :: 0 <= c < |perClaim| ==> i < |perClaim[c]|
  {
    seq(|perClaim|, c requires 0 <= c < |perClaim| => perClaim[c][i])
  }

  function RoundsOf(perClaim: seq<seq<KPoly>>, n: nat): (rounds: seq<Round>)
    requires forall c :: 0 <= c < |perClaim| ==> |perClaim[c]| == n
    ensures |rounds| == n
  {
    seq(n, i requires 0 <= i < n => RoundOf(perClaim, i))
  }

  method BindSchedule(tr: Transcript, count: nat, tags: seq<seq<int>>)
    modifies tr`log
    ensures tr.log == BindClaims(old(tr.log), count, tags)
  {
    tr.AppendMessage(ClaimsLen, [count]);
    ghost var base := tr.log;
    for c := 0 to |tags|
      invariant tr.log == BindFrom(base, tags, c)
    {
      tr.AppendMessage(ClaimLabel, tags[c]);
      tr.AppendMessage(ClaimIdx, [c]);
    }
  }

  method CheckClaims(bounds: seq<nat>, sums: seq<K>, polys: Round) returns (ok: bool)
    requires |polys| == |sums| == |bounds|
    ensures ok <==> AllAccepted(bounds, sums, polys)
  {
    hide RoundAccepted;
    for c := 0 to |polys|
      invariant forall k :: 0 <= k < c ==> RoundAccepted(bounds[k], sums[k], polys[k])
    {
      var accepted := CheckRound(bounds[c], sums[c], polys[c]);
      if !accepted {
        return false;
      }
    }
    ok := true;
  }

  method UpdateSums(polys: Round, r: K) returns (sums: seq<K>)
    ensures sums == EvalAll(polys, r)
  {
    hide Eval;
    sums := [];
    for c := 0 to |polys|
      invariant |sums| == c && forall k :: 0 <= k < c ==> sums[k] == Eval(polys[k], r)
    {
      var v := PolyEvalK(polys[c], r);
      sums := sums + [v];
    }
  }

  ghost predicate BVerifierAt(hash: Hash, start: Shared, bounds: seq<nat>, rounds: seq<Round>,
                              challenges: seq<K>, now: Shared)
  {
    var i := |challenges|;
    && i <= |rounds| && now == BWalk(hash, start, rounds[..i])
    && (forall k :: 0 <= k < i ==> challenges[k] == BChallengeAt(hash, start, rounds, k))
    && (forall k :: 0 <= k < i ==> AllAccepted(bounds, BWalk(hash, start, rounds[..k]).sums, rounds[k]))
  }

  lemma BVerifierStep(hash: Hash, start: Shared, bounds: seq<nat>, rounds: seq<Round>, challenges: seq<K>, now: Shared)
    requires |challenges| < |rounds| && BVerifierAt(hash, start, bounds, rounds, challenges, now)
    ensures var (i, p) := (|challenges|, rounds[|challenges|]);
            if AllAccepted(bounds, now.sums, p)
            then BVerifierAt(hash, start, bounds, rounds, challenges + [SharedChallenge(hash, now.log, i, p)],
                             SharedStep(hash, now, i, p))
            else !BAccepts(hash, start, bounds, rounds)
  {
    hide BWalk, AllAccepted, SharedStep, SharedChallenge;
    BWalkStep(hash, start, rounds, |challenges|);
  }

  /** `verify_batched_sumcheck_rounds`. */
  method VerifyBatched(tr: Transcript, perClaim: seq<seq<KPoly>>, perSums: seq<K>, tags: seq<seq<int>>, bounds: seq<nat>)
    returns (challenges: seq<K>, sums: seq<K>, ok: bool)
    requires |perClaim| == |perSums| == |bounds|
    modifies tr`log
    ensures perClaim == [] ==> ok && challenges == [] && sums == [] && tr.log == old(tr.log)
    ensures ok && perClaim != [] ==> forall c :: 0 <= c < |perClaim| ==> |perClaim[c]| == |perClaim[0]|
    ensures perClaim != [] && (forall c :: 0 <= c < |perClaim| ==> |perClaim[c]| == |perClaim[0]|) ==>
      var (start, rounds) := (Shared(BindClaims(old(tr.log), |perClaim|, tags), perSums), RoundsOf(perClaim, |perClaim[0]|));
      (ok <==> BAccepts(tr.hash, start, bounds, rounds))
      && (ok ==> challenges == BChallenges(tr.hash, start, rounds))
      && (ok ==> Shared(tr.log, sums) == BWalk(tr.hash, start, rounds))
  {
    challenges, sums := [], [];
    if perClaim == [] {
      return [], [], true;
    }
    var n := |perClaim[0]|;
    for c := 0 to |perClaim|
      invariant forall k :: 0 <= k < c ==> |perClaim[k]| == n
    {
      if |perClaim[c]| != n {
        return [], [], false;
      }
    }
    challenges, sums, ok := VerifyRoundsShared(tr, perClaim, n, perSums, tags, bounds);
  }

  method VerifyRoundsShared(tr: Transcript, perClaim: seq<seq<KPoly>>, n: nat, perSums: seq<K>, tags: seq<seq<int>>,
                            bounds: seq<nat>)
    returns (challenges: seq<K>, sums: seq<K>, ok: bool)
    requires |perClaim| == |perSums| == |bounds|
    requires forall c :: 0 <= c < |perClaim| ==> |perClaim[c]| == n
    modifies tr`log
    ensures var (start, rounds) := (Shared(BindClaims(old(tr.log), |perClaim|, tags), perSums), RoundsOf(perClaim, n));
      && (ok <==> BAccepts(tr.hash, start, bounds, rounds))
      && (ok ==> challenges == BChallenges(tr.hash, start, rounds))
      && (ok ==> Shared(tr.log, sums) == BWalk(tr.hash, start, rounds))
  {
    challenges, sums := [], perSums;
    ghost var start, rounds := Shared(BindClaims(tr.log, |perClaim|, tags), perSums), RoundsOf(perClaim, n);
    BindSchedule(tr, |perClaim|, tags);
    hide BindClaims, AllAccepted, PackFrom, EvalAll;
    BWalkEnds(tr.hash, start, rounds);
    for i := 0 to n
      invariant |challenges| == i && |sums| == |bounds|
      invariant BVerifierAt(tr.hash, start, bounds, rounds, challenges, Shared(tr.log, sums))
    {
      hide BAccepts;
      BVerifierStep(tr.hash, start, bounds, rounds, challenges, Shared(tr.log, sums));
      hide BVerifierAt;
      var polys := RoundOf(perClaim, i);
      var accepted := CheckClaims(bounds, sums, polys);
      if !accepted {
        return challenges, sums, false;
      }
      tr.AppendMessage(RoundIdx, [i]);
      tr.AppendFields(BatchPolys, PackFrom(polys, |polys|));
      var challenge := tr.ChallengeK(BatchDraw);
      challenges := challenges + [challenge];
      sums := UpdateSums(polys, challenge);
    }
    ok := true;
  }

  // ----- soundness for each claim -----

  /** The rounds of one claim. */
  function ClaimRounds(rounds: seq<Round>, c: nat): seq<KPoly>
    requires forall i :: 0 <= i < |rounds| ==> c < |rounds[i]|
  {
    seq(|rounds|, i requires 0 <= i < |rounds| => rounds[i][c])
  }

  /** Batching loses nothing: a wrong claim with a right final value needs a lucky shared challenge. */
  lemma BatchedSoundness(hash: Hash, start: Shared, bounds: seq<nat>, rounds: seq<Round>, c: nat, g: seq<K> -> K)
    returns (i: nat, t: KPoly)
    requires BAccepts(hash, start, bounds, rounds) && c < |bounds| == |start.sums|
    requires forall k :: 0 <= k < |rounds| ==> |rounds[k]| == |bounds|
    requires |BWalk(hash, start, rounds).sums| == |bounds|
    requires DegreeBounded(g, |rounds|, bounds[c])
    requires BWalk(hash, start, rounds).sums[c] == g(BChallenges(hash, start, rounds))
    requires start.sums[c] != SumCube(g, [], [], |rounds|)
    ensures LuckyChallenge(g, bounds[c], ClaimRounds(rounds, c), BChallenges(hash, start, rounds), i, t)
  {
    hide Eval, BWalk, DegreeBounded, SumCube, SharedChallenge;
    var n := |rounds|;
    var r, p := BChallenges(hash, start, rounds), ClaimRounds(rounds, c);
    BWalkEnds(hash, start, rounds);
    forall k | 0 <= k <= n
      ensures |BWalk(hash, start, rounds[..k]).sums| == |bounds|
      ensures k < n ==> BWalk(hash, start, rounds[..k + 1]).sums[c] == Eval(p[k], r[k])
    {
      if k < n {
        BWalkStep(hash, start, rounds, k);
      }
      if k > 0 {
        BWalkStep(hash, start, rounds, k - 1);
      }
    }
    var sums := seq(n + 1, k requires 0 <= k <= n => BWalk(hash, start, rounds[..k]).sums[c]);
    ChainOfClaim(hash, start, bounds, rounds, c, p, r, sums);
    i, t := ChainSoundness(g, bounds[c], p, r, sums);
  }

  lemma ChainOfClaim(hash: Hash, start: Shared, bounds: seq<nat>, rounds: seq<Round>, c: nat, p: seq<KPoly>,
                     r: seq<K>, sums: seq<K>)
    requires BAccepts(hash, start, bounds, rounds) && c < |bounds|
    requires |p| == |r| == |rounds| && |sums| == |rounds| + 1
    requires forall k :: 0 <= k <= |rounds| ==> |BWalk(hash, start, rounds[..k]).sums| == |bounds|
    requires forall k :: 0 <= k <= |rounds| ==> sums[k] == BWalk(hash, start, rounds[..k]).sums[c]
    requires forall k :: 0 <= k < |rounds| ==> |rounds[k]| == |bounds| && p[k] == rounds[k][c]
    requires forall k :: 0 <= k < |rounds| ==> sums[k + 1] == Eval(p[k], r[k])
    ensures Chain(bounds[c], p, r, sums)
  {
    hide Eval, BWalk, RoundAccepted;
    forall k | 0 <= k < |rounds|
      ensures RoundAccepted(bounds[c], sums[k], p[k])
    {
      assert AllAccepted(bounds, BWalk(hash, start, rounds[..k]).sums, rounds[k]);
    }
  }

  // ----- prover -----

  datatype Claim<!S> = Claim(oracle: Oracle<S>, state: S, sum: K, tag: seq<int>)

  datatype BatchResult =
    | BatchProved(challenges: seq<K>, perClaim: seq<seq<KPoly>>, finals: seq<K>)
    | BatchInvariant(round: nat, claim: nat, expected: K, actual: K)

  ghost predicate AllRegular<S(!new)>(os: seq<Oracle<S>>) {
    forall c :: 0 <= c < |os| ==> Regular(os[c])
  }

  /** Every claim's polynomial follows its oracle, and the samples sum to the running sum. */
  ghost predicate HonestRound<S(!new)>(os: seq<Oracle<S>>, states: seq<S>, sums: seq<K>, polys: Round)
    requires AllRegular(os)
  {
    && |os| == |states| == |sums| == |polys|
    && forall c :: 0 <= c < |os| ==> CarriesSamples(os[c], states[c], polys[c]) && SampleSum(os[c], states[c]) == sums[c]
  }

  function FoldAll<S(!new)>(os: seq<Oracle<S>>, states: seq<S>, r: K): (next: seq<S>)
    requires |os| == |states| && forall c, t :: 0 <= c < |os| ==> 1 <= os[c].degree(t) < Q
    ensures |next| == |os|
  {
    seq(|os|, c requires 0 <= c < |os| =>
      os[c].fold(os[c].evalsAt(states[c], Nodes(os[c].degree(states[c]))).1, r))
  }

  function StatesAfter<S(!new)>(os: seq<Oracle<S>>, states: seq<S>, hash: Hash, start: Shared, rounds: seq<Round>)
    : (next: seq<S>)
    requires |os| == |states| && forall c, t :: 0 <= c < |os| ==> 1 <= os[c].degree(t) < Q
    ensures |next| == |os|
  {
    if rounds == [] then states
    else
      var n := |rounds| - 1;
      FoldAll(os, StatesAfter(os, states, hash, start, rounds[..n]), BChallengeAt(hash, start, rounds, n))
  }

  /** An oracle on its own, folded with the given challenges. */
  function OwnState<S(!new)>(o: Oracle<S>, s: S, r: seq<K>): S
    requires forall t :: 1 <= o.degree(t) < Q
  {
    if r == [] then s
    else
      var t := OwnState(o, s, r[..|r| - 1]);
      o.fold(o.evalsAt(t, Nodes(o.degree(t))).1, r[|r| - 1])
  }

  /** In the single protocol the oracle sees the challenges of the transcript. */
  lemma {:induction false} StateIsOwn<S(!new)>(o: Oracle<S>, s: S, hash: Hash, start: Running, rounds: seq<KPoly>)
    requires forall t :: 1 <= o.degree(t) < Q
    ensures StateAfter(o, s, hash, start, rounds) == OwnState(o, s, Challenges(hash, start, rounds))
    decreases |rounds|
  {
    hide Walk, RoundChallenge;
    if rounds != [] {
      var n := |rounds| - 1;
      StateIsOwn(o, s, hash, start, rounds[..n]);
      assert forall k :: 0 <= k < n ==> rounds[..n][..k] == rounds[..k];
      assert Challenges(hash, start, rounds)[..n] == Challenges(hash, start, rounds[..n]);
    }
  }

  /** In a batch every oracle runs on its own state, with the shared challenges. */
  lemma {:induction false} EachStateIsOwn<S(!new)>(os: seq<Oracle<S>>, states: seq<S>, hash: Hash, start: Shared,
                                                   rounds: seq<Round>, c: nat)
    requires |os| == |states| && (forall i, t :: 0 <= i < |os| ==> 1 <= os[i].degree(t) < Q) && c < |os|
    ensures StatesAfter(os, states, hash, start, rounds)[c] == OwnState(os[c], states[c], BChallenges(hash, start, rounds))
    decreases |rounds|
  {
    hide BWalk, SharedChallenge;
    if rounds != [] {
      var n := |rounds| - 1;
      EachStateIsOwn(os, states, hash, start, rounds[..n], c);
      assert forall k :: 0 <= k < n ==> rounds[..n][..k] == rounds[..k];
      assert BChallenges(hash, start, rounds)[..n] == BChallenges(hash, start, rounds[..n]);
    }
  }

  ghost predicate BHonest<S(!new)>(os: seq<Oracle<S>>, states: seq<S>, hash: Hash, start: Shared, rounds: seq<Round>)
    requires AllRegular(os) && |os| == |states|
  {
    forall i :: 0 <= i < |rounds| ==>
      HonestRound(os, StatesAfter(os, states, hash, start, rounds[..i]), BWalk(hash, start, rounds[..i]).sums, rounds[i])
  }

  /** Completeness of the batched protocol. */
  lemma BatchedCompleteness<S(!new)>(os: seq<Oracle<S>>, states: seq<S>, hash: Hash, start: Shared,
                                     rounds: seq<Round>, bounds: seq<nat>)
    requires AllRegular(os) && |os| == |states| == |bounds|
    requires forall c, t :: 0 <= c < |os| ==> os[c].degree(t) <= bounds[c]
    requires BHonest(os, states, hash, start, rounds)
    ensures BAccepts(hash, start, bounds, rounds)
  {
    hide Eval, KAdd, StatesAfter, BWalk;
    forall i | 0 <= i < |rounds|
      ensures AllAccepted(bounds, BWalk(hash, start, rounds[..i]).sums, rounds[i])
    {
      var s, sums := StatesAfter(os, states, hash, start, rounds[..i]), BWalk(hash, start, rounds[..i]).sums;
      assert HonestRound(os, s, sums, rounds[i]);
      forall c | 0 <= c < |os|
        ensures RoundAccepted(bounds[c], sums[c], rounds[i][c])
      {
        SamplesAtZeroOne(os[c], s[c], rounds[i][c]);
      }
    }
  }

  ghost predicate BProverAt<S(!new)>(os: seq<Oracle<S>>, states0: seq<S>, hash: Hash, start: Shared,
                                     rounds: seq<Round>, challenges: seq<K>, now: Shared, states: seq<S>)
    requires AllRegular(os) && |os| == |states0|
  {
    && BHonest(os, states0, hash, start, rounds)
    && challenges == BChallenges(hash, start, rounds)
    && now == BWalk(hash, start, rounds) && states == StatesAfter(os, states0, hash, start, rounds)
  }

  lemma BHonestAppend<S(!new)>(os: seq<Oracle<S>>, states0: seq<S>, hash: Hash, start: Shared, rounds: seq<Round>, p: Round)
    requires AllRegular(os) && |os| == |states0| && BHonest(os, states0, hash, start, rounds)
    requires HonestRound(os, StatesAfter(os, states0, hash, start, rounds), BWalk(hash, start, rounds).sums, p)
    ensures BHonest(os, states0, hash, start, rounds + [p])
  {
    hide BWalk, StatesAfter, HonestRound;
    var after, n := rounds + [p], |rounds|;
    assert after[..n] == rounds;
    assert forall k :: 0 <= k < n ==> after[..k] == rounds[..k];
  }

  lemma BChallengesAppend(hash: Hash, start: Shared, rounds: seq<Round>, p: Round)
    ensures BChallenges(hash, start, rounds + [p])
         == BChallenges(hash, start, rounds) + [SharedChallenge(hash, BWalk(hash, start, rounds).log, |rounds|, p)]
    ensures BChallengeAt(hash, start, rounds + [p], |rounds|)
         == SharedChallenge(hash, BWalk(hash, start, rounds).log, |rounds|, p)
  {
    hide BWalk, SharedChallenge;
    var after, n := rounds + [p], |rounds|;
    assert after[..n] == rounds;
    assert forall k :: 0 <= k < n ==> after[..k] == rounds[..k];
  }

  lemma BProverStep<S(!new)>(os: seq<Oracle<S>>, states0: seq<S>, hash: Hash, start: Shared, rounds: seq<Round>,
                             challenges: seq<K>, now: Shared, states: seq<S>, p: Round)
    requires AllRegular(os) && |os| == |states0|
    requires BProverAt(os, states0, hash, start, rounds, challenges, now, states)
    requires HonestRound(os, states, now.sums, p)
    ensures var r := SharedChallenge(hash, now.log, |rounds|, p);
            BProverAt(os, states0, hash, start, rounds + [p], challenges + [r],
                      SharedStep(hash, now, |rounds|, p), FoldAll(os, states, r))
  {
    hide HonestRound, SharedStep, SharedChallenge, FoldAll;
    BHonestAppend(os, states0, hash, start, rounds, p);
    BChallengesAppend(hash, start, rounds, p);
    var after, n := rounds + [p], |rounds|;
    assert after[..n] == rounds;
    hide BHonest, BChallenges;
  }

  /** What `run_batched_sumcheck_prover` returns. */
  ghost predicate BatchResultOk<S(!new)>(os: seq<Oracle<S>>, states0: seq<S>, hash: Hash, start: Shared, n: nat,
                                         r: BatchResult, honest: seq<Round>, now: Shared)
    requires AllRegular(os) && |os| == |states0|
  {
    var states := StatesAfter(os, states0, hash, start, honest);
    && BHonest(os, states0, hash, start, honest) && now.sums == BWalk(hash, start, honest).sums
    && match r
       case BatchProved(challenges, perClaim, finals) =>
         && |honest| == n && now == BWalk(hash, start, honest) && finals == now.sums
         && challenges == BChallenges(hash, start, honest)
         && |perClaim| == |os| && (forall c :: 0 <= c < |os| ==> |perClaim[c]| == n) && RoundsOf(perClaim, n) == honest
       case BatchInvariant(round, c, expected, actual) =>
         && round == |honest| < n && c < |os| && |now.sums| == |os| && expected == now.sums[c]
         && actual == SampleSum(os[c], states[c]) && actual != expected
         && forall k :: 0 <= k < c ==> SampleSum(os[k], states[k]) == now.sums[k]
  }

  datatype Collected<!S> =
    | Polys(polys: Round, states: seq<S>)
    | Mismatch(claim: nat, actual: K)

  /** Round polynomials of all claims, or the first claim whose samples miss its running sum. */
  method CollectRound<S(!new)>(os: seq<Oracle<S>>, states: seq<S>, sums: seq<K>) returns (r: Collected<S>)
    requires AllRegular(os) && |os| == |states| == |sums|
    ensures r.Polys? ==> HonestRound(os, states, sums, r.polys) && |r.states| == |os|
    ensures r.Polys? ==> forall c :: 0 <= c < |os| ==>
      r.states[c] == os[c].evalsAt(states[c], Nodes(os[c].degree(states[c]))).1
    ensures r.Mismatch? ==> r.claim < |os| && r.actual == SampleSum(os[r.claim], states[r.claim]) != sums[r.claim]
    ensures r.Mismatch? ==> forall k :: 0 <= k < r.claim ==> SampleSum(os[k], states[k]) == sums[k]
  {
    var polys: Round := [];
    var next: seq<S> := [];
    for c := 0 to |os|
      invariant |polys| == |next| == c
      invariant forall k :: 0 <= k < c ==> CarriesSamples(os[k], states[k], polys[k])
      invariant forall k :: 0 <= k < c ==> SampleSum(os[k], states[k]) == sums[k]
      invariant forall k :: 0 <= k < c ==> next[k] == os[k].evalsAt(states[k], Nodes(os[k].degree(states[k]))).1
    {
      var coeffs, after, sumAt01 := SampleClaim(os[c], states[c]);
      hide CarriesSamples, SampleSum, Nodes;
      if sumAt01 != sums[c] {
        return Mismatch(c, sumAt01);
      }
      polys := polys + [coeffs];
      next := next + [after];
    }
    r := Polys(polys, next);
  }

  method SampleClaim<S(!new)>(o: Oracle<S>, s: S) returns (coeffs: KPoly, after: S, sumAt01: K)
    requires Regular(o)
    ensures CarriesSamples(o, s, coeffs) && sumAt01 == SampleSum(o, s)
    ensures after == o.evalsAt(s, Nodes(o.degree(s))).1
  {
    hide Eval;
    var deg := o.degree(s);
    var (ys, t) := o.evalsAt(s, Nodes(deg));
    after := t;
    sumAt01 := KAdd(ys[0], ys[1]);
    coeffs := InterpolateOnNodes(deg, ys);
  }

  datatype RoundOutcome<!S> =
    | Advanced(polys: Round, challenge: K, sums: seq<K>, states: seq<S>)
    | Stopped(claim: nat, actual: K)

  /** One round of the batched prover. */
  method ProveRound<S(!new)>(tr: Transcript, os: seq<Oracle<S>>, states: seq<S>, sums: seq<K>, i: nat)
    returns (r: RoundOutcome<S>)
    requires AllRegular(os) && |os| == |states| == |sums|
    modifies tr`log
    ensures r.Advanced? ==> HonestRound(os, states, sums, r.polys) && r.states == FoldAll(os, states, r.challenge)
    ensures r.Advanced? ==> |r.polys| == |r.sums| == |os| && r.challenge == SharedChallenge(tr.hash, old(tr.log), i, r.polys)
    ensures r.Advanced? ==> Shared(tr.log, r.sums) == SharedStep(tr.hash, Shared(old(tr.log), sums), i, r.polys)
    ensures r.Stopped? ==> r.claim < |os| && r.actual == SampleSum(os[r.claim], states[r.claim]) != sums[r.claim]
    ensures r.Stopped? ==> forall k :: 0 <= k < r.claim ==> SampleSum(os[k], states[k]) == sums[k]
  {
    hide PackFrom, EvalAll, FoldAll, SampleSum, CarriesSamples;
    tr.AppendMessage(RoundIdx, [i]);
    var collected := CollectRound(os, states, sums);
    if collected.Mismatch? {
      return Stopped(collected.claim, collected.actual);
    }
    var polys := collected.polys;
    HonestRoundSize(os, states, sums, polys);
    hide HonestRound;
    tr.AppendFields(BatchPolys, PackFrom(polys, |polys|));
    var challenge := tr.ChallengeK(BatchDraw);
    var folded := FoldStates(os, states, collected.states, challenge);
    var newSums := UpdateSums(polys, challenge);
    r := Advanced(polys, challenge, newSums, folded);
  }

  /** Claim-major copies of the rounds. */
  function Transposed(rounds: seq<Round>, width: nat): (perClaim: seq<seq<KPoly>>)
    requires forall k :: 0 <= k < |rounds| ==> |rounds[k]| == width
    ensures |perClaim| == width && forall c :: 0 <= c < width ==> |perClaim[c]| == |rounds|
    ensures RoundsOf(perClaim, |rounds|) == rounds
  {
    var perClaim := seq(width, c requires 0 <= c < width => ClaimRounds(rounds, c));
    assert forall i :: 0 <= i < |rounds| ==> RoundOf(perClaim, i) == rounds[i];
    perClaim
  }

  lemma BProverStart<S(!new)>(os: seq<Oracle<S>>, states0: seq<S>, hash: Hash, start: Shared)
    requires AllRegular(os) && |os| == |states0|
    ensures BProverAt(os, states0, hash, start, [], [], start, states0)
  {}

  lemma BProverDone<S(!new)>(os: seq<Oracle<S>>, states0: seq<S>, hash: Hash, start: Shared, rounds: seq<Round>,
                             challenges: seq<K>, now: Shared, states: seq<S>)
    requires AllRegular(os) && |os| == |states0|
    requires BProverAt(os, states0, hash, start, rounds, challenges, now, states)
    requires forall k :: 0 <= k < |rounds| ==> |rounds[k]| == |os|
    ensures BatchResultOk(os, states0, hash, start, |rounds|,
                          BatchProved(challenges, Transposed(rounds, |os|), now.sums), rounds, now)
  {
    hide BHonest, BWalk, BChallenges, StatesAfter, Transposed, RoundsOf, SampleSum;
  }

  lemma BProverStops<S(!new)>(os: seq<Oracle<S>>, states0: seq<S>, hash: Hash, start: Shared, n: nat,
                              rounds: seq<Round>, challenges: seq<K>, now: Shared, states: seq<S>, c: nat, actual: K)
    requires AllRegular(os) && |os| == |states0|
    requires BProverAt(os, states0, hash, start, rounds, challenges, now, states)
    requires |rounds| < n && c < |os| == |now.sums|
    requires actual == SampleSum(os[c], states[c]) != now.sums[c]
    requires forall k :: 0 <= k < c ==> SampleSum(os[k], states[k]) == now.sums[k]
    ensures BatchResultOk(os, states0, hash, start, n, BatchInvariant(|rounds|, c, now.sums[c], actual), rounds, now)
  {
    hide BHonest, BWalk, BChallenges, StatesAfter, RoundsOf, SampleSum;
  }

  /** Number of rounds of the batch: that of the first claim, none without claims. */
  function BatchRounds<S(!new)>(os: seq<Oracle<S>>, states: seq<S>): nat
    requires |os| == |states|
  {
    if os == [] then 0 else os[0].numRounds(states[0])
  }

  /** `run_batched_sumcheck_prover`; without claims nothing is absorbed. */
  method RunBatchedProver<S(!new)>(tr: Transcript, os: seq<Oracle<S>>, states0: seq<S>, sums0: seq<K>, tags: seq<seq<int>>)
    returns (r: BatchResult, ghost honest: seq<Round>, ghost now: Shared)
    requires AllRegular(os) && |os| == |states0| == |sums0| == |tags|
    requires forall c :: 0 <= c < |os| ==> os[c].numRounds(states0[c]) == BatchRounds(os, states0)
    modifies tr`log
    ensures os == [] ==> r == BatchProved([], [], []) && tr.log == old(tr.log)
    ensures os != [] ==> BatchResultOk(os, states0, tr.hash, Shared(BindClaims(old(tr.log), |os|, tags), sums0),
                                       BatchRounds(os, states0), r, honest, now)
    ensures os != [] && r.BatchProved? ==> now.log == tr.log
  {
    if os == [] {
      return BatchProved([], [], []), [], Shared(tr.log, sums0);
    }
    hide BindClaims, HonestRound, SharedStep, SharedChallenge, FoldAll, SampleSum;
    hide BProverAt, BatchResultOk, Transposed;
    ghost var start := Shared(BindClaims(tr.log, |os|, tags), sums0);
    var n := BatchRounds(os, states0);
    var rounds: seq<Round> := [];
    var challenges: seq<K> := [];
    var sums, states := sums0, states0;
    BindSchedule(tr, |os|, tags);
    BProverStart(os, states0, tr.hash, start);
    for i := 0 to n
      invariant |rounds| == i && |sums| == |states| == |os|
      invariant BProverAt(os, states0, tr.hash, start, rounds, challenges, Shared(tr.log, sums), states)
      invariant forall k :: 0 <= k < i ==> |rounds[k]| == |os|
    {
      ghost var before := Shared(tr.log, sums);
      var out := ProveRound(tr, os, states, sums, i);
      if out.Stopped? {
        BProverStops(os, states0, tr.hash, start, n, rounds, challenges, before, states, out.claim, out.actual);
        return BatchInvariant(i, out.claim, sums[out.claim], out.actual), rounds, before;
      }
      BProverStep(os, states0, tr.hash, start, rounds, challenges, before, states, out.polys);
      rounds := rounds + [out.polys];
      challenges := challenges + [out.challenge];
      sums, states := out.sums, out.states;
    }
    honest, now := rounds, Shared(tr.log, sums);
    BProverDone(os, states0, tr.hash, start, rounds, challenges, now, states);
    r := BatchProved(challenges, Transposed(rounds, |os|), sums);
  }

  /** Batched prover and verifier on equal transcripts: same challenges, same final values, accepted. */
  method BatchedProveThenVerify<S(!new)>(hash: Hash, os: seq<Oracle<S>>, states0: seq<S>, sums0: seq<K>,
                                         tags: seq<seq<int>>, bounds: seq<nat>)
    returns (r: BatchResult, challenges: seq<K>, sums: seq<K>, ok: bool)
    requires AllRegular(os) && |os| == |states0| == |sums0| == |tags| == |bounds|
    requires forall c :: 0 <= c < |os| ==> os[c].numRounds(states0[c]) == BatchRounds(os, states0)
    requires forall c, t :: 0 <= c < |os| ==> os[c].degree(t) <= bounds[c]
    ensures r.BatchProved? ==> ok && challenges == r.challenges && sums == r.finals
  {
    hide BWalk, BChallenges, BHonest, BAccepts, StatesAfter, RoundsOf;
    var ptr := new Transcript(hash);
    var vtr := new Transcript(hash);
    ghost var honest, now;
    r, honest, now := RunBatchedProver(ptr, os, states0, sums0, tags);
    challenges, sums, ok := [], [], false;
    if r.BatchProved? {
      if os != [] {
        BatchedCompleteness(os, states0, hash, Shared(BindClaims([], |os|, tags), sums0), honest, bounds);
      }
      challenges, sums, ok := VerifyBatched(vtr, r.perClaim, sums0, tags, bounds);
    }
  }

  lemma HonestRoundSize<S(!new)>(os: seq<Oracle<S>>, states: seq<S>, sums: seq<K>, polys: Round)
    requires AllRegular(os) && HonestRound(os, states, sums, polys)
    ensures |polys| == |os|
  {}

  method FoldStates<S(!new)>(os: seq<Oracle<S>>, ghost states: seq<S>, after: seq<S>, r: K) returns (next: seq<S>)
    requires AllRegular(os) && |os| == |states| == |after|
    requires forall c :: 0 <= c < |os| ==> after[c] == os[c].evalsAt(states[c], Nodes(os[c].degree(states[c]))).1
    ensures next == FoldAll(os, states, r)
  {
    hide Nodes;
    next := [];
    for c := 0 to |os|
      invariant |next| == c
      invariant forall k :: 0 <= k < c ==> next[k] == os[k].fold(after[k], r)
    {
      next := next + [os[c].fold(after[c], r)];
    }
  }
}
