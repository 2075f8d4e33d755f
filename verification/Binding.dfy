/**
 What the sum-check transcripts absorb: every message in its place, every challenge drawn from all
 messages before it, and no two runs with one transcript.
 */
module Binding {
  import opened Field
  import opened ExtField
  import opened KPolynomials
  import opened SumCheck
  import opened Batched

  // ----- packed polynomials -----

  /** Real and imaginary parts alternate. */
  lemma {:induction false} PackLayout(c: KPoly)
    ensures |Pack(c)| == 2 * |c|
    ensures forall i :: 0 <= i < |c| ==> Pack(c)[2 * i] == c[i].re && Pack(c)[2 * i + 1] == c[i].im
  {
    if c != [] {
      PackLayout(c[1..]);
      forall i | 0 <= i < |c|
        ensures Pack(c)[2 * i] == c[i].re && Pack(c)[2 * i + 1] == c[i].im
      {
        if i > 0 {
          assert c[i] == c[1..][i - 1] && Pack(c)[2 * i] == Pack(c[1..])[2 * (i - 1)];
        }
      }
    }
  }

  lemma PackBinds(a: KPoly, b: KPoly)
    requires Pack(a) == Pack(b)
    ensures a == b
  {
    PackLayout(a);
    PackLayout(b);
    forall i | 0 <= i < |a|
      ensures a[i] == b[i]
    {
      assert Pack(a)[2 * i] == Pack(b)[2 * i] && Pack(a)[2 * i + 1] == Pack(b)[2 * i + 1];
    }
  }

  // ----- one claim -----

  /** Two messages for every round, after what was there before. */
  lemma {:induction false} WalkLog(hash: Hash, start: Running, rounds: seq<KPoly>)
    ensures var (log, n) := (Walk(hash, start, rounds).log, |start.log|);
            && |log| == n + 2 * |rounds| && log[..n] == start.log
            && forall i :: 0 <= i < |rounds| ==>
                 log[n + 2 * i] == Fields(RoundCoeff, Pack(rounds[i])) && log[n + 2 * i + 1] == Squeeze(RoundDraw, 2)
  {
    hide Pack, Eval;
    if rounds != [] {
      var m := |rounds| - 1;
      WalkLog(hash, start, rounds[..m]);
    }
  }

  /** The challenge of round i is the hash of everything up to the polynomial of that round. */
  lemma ChallengeIsHash(hash: Hash, start: Running, rounds: seq<KPoly>, i: nat)
    requires i < |rounds|
    ensures var log := Walk(hash, start, rounds).log;
            && |start.log| + 2 * i + 1 <= |log|
            && var c := hash(log[..|start.log| + 2 * i + 1]); Challenges(hash, start, rounds)[i] == K(c.0, c.1)
  {
    hide Pack, Eval, Walk;
    WalkLog(hash, start, rounds);
    WalkPrefix(hash, start, rounds, i);
    var log, before, n := Walk(hash, start, rounds).log, Walk(hash, start, rounds[..i]).log, |start.log|;
    assert log[..n + 2 * i + 1] == before + [Fields(RoundCoeff, Pack(rounds[i]))];
  }

  /** Later rounds only append. */
  lemma {:induction false} WalkPrefix(hash: Hash, start: Running, rounds: seq<KPoly>, i: nat)
    requires i <= |rounds|
    ensures |Walk(hash, start, rounds).log| >= |start.log| + 2 * i
    ensures Walk(hash, start, rounds[..i]).log == Walk(hash, start, rounds).log[..|start.log| + 2 * i]
    decreases |rounds|
  {
    hide *;
    var n := |start.log| + 2 * i;
    if i == |rounds| {
      assert rounds[..i] == rounds;
      WalkSize(hash, start, rounds);
    } else {
      var m := |rounds| - 1;
      WalkPrefix(hash, start, rounds[..m], i);
      assert rounds[..m][..i] == rounds[..i];
      WalkSize(hash, start, rounds[..m]);
      WalkAppends(hash, start, rounds);
      assert Walk(hash, start, rounds).log[..n] == Walk(hash, start, rounds[..m]).log[..n];
    }
  }

  lemma WalkSize(hash: Hash, start: Running, rounds: seq<KPoly>)
    ensures |Walk(hash, start, rounds).log| == |start.log| + 2 * |rounds|
  {
    WalkLog(hash, start, rounds);
  }

  lemma WalkAppends(hash: Hash, start: Running, rounds: seq<KPoly>)
    requires rounds != []
    ensures Walk(hash, start, rounds).log == Walk(hash, start, rounds[..|rounds| - 1]).log
                                          + [Fields(RoundCoeff, Pack(rounds[|rounds| - 1])), Squeeze(RoundDraw, 2)]
  {
    hide Pack, Eval;
  }

  /** The transcript binds the proof: equal transcripts come from equal round polynomials. */
  lemma WalkBinds(hash: Hash, s: Running, a: seq<KPoly>, other: Hash, t: Running, b: seq<KPoly>)
    requires |s.log| == |t.log| && Walk(hash, s, a).log == Walk(other, t, b).log
    ensures s.log == t.log && a == b
  {
    hide Pack, Walk;
    WalkLog(hash, s, a);
    WalkLog(other, t, b);
    forall i | 0 <= i < |a|
      ensures a[i] == b[i]
    {
      PackBinds(a[i], b[i]);
    }
  }

  // ----- the packed polynomials of one batched round -----

  /** Where claim c begins. */
  function Offset(polys: Round, c: nat): nat
    requires c <= |polys|
  {
    if c == 0 then 1 else Offset(polys, c - 1) + 3 + 2 * |polys[c - 1]|
  }

  /** The number of claims, then index, length, width and coefficients of every claim. */
  lemma {:induction false} PackFromLayout(polys: Round, n: nat, c: nat)
    requires c < n <= |polys|
    ensures var (p, k) := (PackFrom(polys, n), Offset(polys, c));
            && |p| == Offset(polys, n) && k + 3 + 2 * |polys[c]| <= |p| && p[0] == Red(|polys|)
            && p[k] == Red(c) && p[k + 1] == Red(|polys[c]|) && p[k + 2] == (if polys[c] == [] then 0 else 2)
            && p[k + 3..k + 3 + 2 * |polys[c]|] == Pack(polys[c])
  {
    hide Red, Pack;
    PackLayout(polys[n - 1]);
    if c < n - 1 {
      PackFromLayout(polys, n - 1, c);
    } else {
      PackFromSize(polys, c);
    }
  }

  lemma {:induction false} PackFromSize(polys: Round, n: nat)
    requires n <= |polys|
    ensures |PackFrom(polys, n)| == Offset(polys, n) && PackFrom(polys, n)[0] == Red(|polys|)
  {
    hide Red, Pack;
    if n != 0 {
      PackFromSize(polys, n - 1);
      PackLayout(polys[n - 1]);
    }
  }

  /** Numbers of claims and of coefficients are lengths of buffers, far below q. */
  ghost predicate Countable(polys: Round) {
    |polys| < Q && forall c :: 0 <= c < |polys| ==> |polys[c]| < Q
  }

  lemma {:induction false} SameClaims(a: Round, b: Round, n: nat)
    requires Countable(a) && Countable(b) && |a| == |b| && n <= |a| && PackFrom(a, |a|) == PackFrom(b, |b|)
    ensures a[..n] == b[..n] && Offset(a, n) == Offset(b, n)
  {
    hide Pack, PackFrom, Red;
    if n != 0 {
      var c := n - 1;
      SameClaims(a, b, c);
      PackFromLayout(a, |a|, c);
      PackFromLayout(b, |b|, c);
      SmallResidues(|a[c]|, |b[c]|);
      PackBinds(a[c], b[c]);
      assert a[..n] == a[..c] + [a[c]] && b[..n] == b[..c] + [b[c]];
    }
  }

  lemma SmallResidues(x: nat, y: nat)
    requires x < Q && y < Q && Red(x) == Red(y)
    ensures x == y
  {
    RedCanonical(x);
    RedCanonical(y);
  }

  lemma PackFromBinds(a: Round, b: Round)
    requires Countable(a) && Countable(b) && PackFrom(a, |a|) == PackFrom(b, |b|)
    ensures a == b
  {
    PackFromSize(a, |a|);
    PackFromSize(b, |b|);
    hide Pack, PackFrom, Red;
    SmallResidues(|a|, |b|);
    SameClaims(a, b, |a|);
    assert a[..|a|] == a && b[..|b|] == b;
  }

  // ----- several claims -----

  lemma {:induction false} BindFromLog(log: seq<Msg>, tags: seq<seq<int>>, n: nat)
    requires n <= |tags|
    ensures var l := BindFrom(log, tags, n);
            && |l| == |log| + 2 * n && l[..|log|] == log
            && forall c :: 0 <= c < n ==>
                 l[|log| + 2 * c] == Message(ClaimLabel, tags[c]) && l[|log| + 2 * c + 1] == Message(ClaimIdx, [c])
  {
    if n != 0 {
      BindFromLog(log, tags, n - 1);
    }
  }

  /** The number of claims, then label and index of every claim. */
  lemma BindClaimsLog(log: seq<Msg>, count: nat, tags: seq<seq<int>>)
    ensures var (l, n) := (BindClaims(log, count, tags), |log|);
            && |l| == n + 1 + 2 * |tags| && l[..n] == log && l[n] == Message(ClaimsLen, [count])
            && forall c :: 0 <= c < |tags| ==>
                 l[n + 1 + 2 * c] == Message(ClaimLabel, tags[c]) && l[n + 2 + 2 * c] == Message(ClaimIdx, [c])
  {
    var first := log + [Message(ClaimsLen, [count])];
    BindFromLog(first, tags, |tags|);
    assert first[..|log|] == log;
    assert BindFrom(first, tags, |tags|)[..|log|] == BindFrom(first, tags, |tags|)[..|first|][..|log|];
  }

  lemma BindClaimsBinds(log: seq<Msg>, count: nat, tags: seq<seq<int>>,
                        log': seq<Msg>, count': nat, tags': seq<seq<int>>)
    requires |log| == |log'| && BindClaims(log, count, tags) == BindClaims(log', count', tags')
    ensures log == log' && count == count' && tags == tags'
  {
    BindClaimsLog(log, count, tags);
    BindClaimsLog(log', count', tags');
    hide BindClaims;
    var l := BindClaims(log, count, tags);
    assert l[|log|] == Message(ClaimsLen, [count]) == Message(ClaimsLen, [count']);
    forall c | 0 <= c < |tags|
      ensures tags[c] == tags'[c]
    {
      assert l[|log| + 1 + 2 * c] == Message(ClaimLabel, tags[c]) == Message(ClaimLabel, tags'[c]);
    }
  }

  /** Three messages for every round. */
  lemma {:induction false} BWalkLog(hash: Hash, start: Shared, rounds: seq<Round>)
    ensures var (log, n) := (BWalk(hash, start, rounds).log, |start.log|);
            && |log| == n + 3 * |rounds| && log[..n] == start.log
            && forall i :: 0 <= i < |rounds| ==> IsRound(log, n + 3 * i, i, rounds[i])
  {
    hide PackFrom, Eval;
    if rounds != [] {
      BWalkLog(hash, start, rounds[..|rounds| - 1]);
    }
  }

  /** The three messages of round i stand at position k. */
  ghost predicate IsRound(log: seq<Msg>, k: nat, i: nat, polys: Round) {
    && k + 3 <= |log| && log[k] == Message(RoundIdx, [i])
    && log[k + 1] == Fields(BatchPolys, PackFrom(polys, |polys|)) && log[k + 2] == Squeeze(BatchDraw, 2)
  }

  lemma {:induction false} BWalkPrefix(hash: Hash, start: Shared, rounds: seq<Round>, i: nat)
    requires i <= |rounds|
    ensures |BWalk(hash, start, rounds).log| >= |start.log| + 3 * i
    ensures BWalk(hash, start, rounds[..i]).log == BWalk(hash, start, rounds).log[..|start.log| + 3 * i]
    decreases |rounds|
  {
    hide *;
    var n := |start.log| + 3 * i;
    if i == |rounds| {
      assert rounds[..i] == rounds;
      BWalkSize(hash, start, rounds);
    } else {
      var m := |rounds| - 1;
      BWalkPrefix(hash, start, rounds[..m], i);
      assert rounds[..m][..i] == rounds[..i];
      BWalkSize(hash, start, rounds[..m]);
      BWalkAppends(hash, start, rounds);
      assert BWalk(hash, start, rounds).log[..n] == BWalk(hash, start, rounds[..m]).log[..n];
    }
  }

  lemma BWalkSize(hash: Hash, start: Shared, rounds: seq<Round>)
    ensures |BWalk(hash, start, rounds).log| == |start.log| + 3 * |rounds|
  {
    BWalkLog(hash, start, rounds);
  }

  lemma BWalkAppends(hash: Hash, start: Shared, rounds: seq<Round>)
    requires rounds != []
    ensures var (m, polys) := (|rounds| - 1, rounds[|rounds| - 1]);
            BWalk(hash, start, rounds).log == BWalk(hash, start, rounds[..m]).log
              + [Message(RoundIdx, [m]), Fields(BatchPolys, PackFrom(polys, |polys|)), Squeeze(BatchDraw, 2)]
  {
    hide PackFrom, Eval;
  }

  /** The shared challenge of round i is the hash of everything up to the polynomials of that round. */
  lemma BChallengeIsHash(hash: Hash, start: Shared, rounds: seq<Round>, i: nat)
    requires i < |rounds|
    ensures var log := BWalk(hash, start, rounds).log;
            && |start.log| + 3 * i + 2 <= |log|
            && var c := hash(log[..|start.log| + 3 * i + 2]); BChallenges(hash, start, rounds)[i] == K(c.0, c.1)
  {
    hide PackFrom, Eval, BWalk;
    BWalkLog(hash, start, rounds);
    BWalkPrefix(hash, start, rounds, i);
    var log, n := BWalk(hash, start, rounds).log, |start.log|;
    assert IsRound(log, n + 3 * i, i, rounds[i]);
    assert log[..n + 3 * i + 2] == log[..n + 3 * i] + [log[n + 3 * i]] + [log[n + 3 * i + 1]];
  }

  /** The rounds of a batch are bound. */
  lemma BWalkBinds(hash: Hash, s: Shared, a: seq<Round>, other: Hash, t: Shared, b: seq<Round>)
    requires |s.log| == |t.log| && BWalk(hash, s, a).log == BWalk(other, t, b).log
    requires (forall i :: 0 <= i < |a| ==> Countable(a[i])) && forall i :: 0 <= i < |b| ==> Countable(b[i])
    ensures s.log == t.log && a == b
  {
    hide PackFrom, BWalk, Countable, IsRound;
    BWalkLog(hash, s, a);
    BWalkLog(other, t, b);
    var log := BWalk(hash, s, a).log;
    forall i | 0 <= i < |a|
      ensures a[i] == b[i]
    {
      SameRound(log, |s.log| + 3 * i, i, a[i], b[i]);
    }
  }

  lemma SameRound(log: seq<Msg>, k: nat, i: nat, a: Round, b: Round)
    requires Countable(a) && Countable(b) && IsRound(log, k, i, a) && IsRound(log, k, i, b)
    ensures a == b
  {
    hide PackFrom, Countable;
    PackFromBinds(a, b);
  }

  /** A whole batched run. */
  function Batch(hash: Hash, log: seq<Msg>, count: nat, tags: seq<seq<int>>, sums: seq<K>, rounds: seq<Round>): seq<Msg> {
    BWalk(hash, Shared(BindClaims(log, count, tags), sums), rounds).log
  }

  /** The transcript of a batch binds the number of claims, the labels and every round polynomial. */
  lemma BatchBinds(hash: Hash, log: seq<Msg>, count: nat, tags: seq<seq<int>>, sums: seq<K>, a: seq<Round>,
                   other: Hash, log': seq<Msg>, count': nat, tags': seq<seq<int>>, sums': seq<K>, b: seq<Round>)
    requires |log| == |log'| && Batch(hash, log, count, tags, sums, a) == Batch(other, log', count', tags', sums', b)
    requires (forall i :: 0 <= i < |a| ==> Countable(a[i])) && forall i :: 0 <= i < |b| ==> Countable(b[i])
    ensures log == log' && count == count' && tags == tags' && a == b
  {
    var s, t := Shared(BindClaims(log, count, tags), sums), Shared(BindClaims(log', count', tags'), sums');
    BindClaimsLog(log, count, tags);
    BindClaimsLog(log', count', tags');
    BWalkLog(hash, s, a);
    BWalkLog(other, t, b);
    hide PackFrom, BWalk, Countable, BindClaims, IsRound;
    var l := BWalk(hash, s, a).log;
    LabelsEnd(l, |log|, count, tags, log, a);
    LabelsEnd(l, |log|, count', tags', log', b);
    assert LabelAt(l, |log|, |tags|) <==> |tags| < |tags'|;
    assert LabelAt(l, |log|, |tags'|) <==> |tags'| < |tags|;
    BWalkBinds(hash, s, a, other, t, b);
    BindClaimsBinds(log, count, tags, log', count', tags');
  }

  /** A label of a claim stands where label c would stand. */
  predicate LabelAt(log: seq<Msg>, n: nat, c: nat) {
    var k := n + 1 + 2 * c;
    k < |log| && log[k].Message? && log[k].tag == ClaimLabel
  }

  /** Labels end where the first round begins. */
  lemma LabelsEnd(log: seq<Msg>, n: nat, count: nat, tags: seq<seq<int>>, base: seq<Msg>, rounds: seq<Round>)
    requires |base| == n && BindClaims(base, count, tags) <= log
    requires |log| == n + 1 + 2 * |tags| + 3 * |rounds|
    requires forall i :: 0 <= i < |rounds| ==> IsRound(log, n + 1 + 2 * |tags| + 3 * i, i, rounds[i])
    ensures forall c :: 0 <= c < |tags| ==> LabelAt(log, n, c)
    ensures !LabelAt(log, n, |tags|)
  {
    hide PackFrom, BindClaims;
    BindClaimsLog(base, count, tags);
    forall c | 0 <= c < |tags|
      ensures LabelAt(log, n, c)
    {
      assert log[n + 1 + 2 * c] == BindClaims(base, count, tags)[|base| + 1 + 2 * c] == Message(ClaimLabel, tags[c]);
    }
    if rounds != [] {
      assert IsRound(log, n + 1 + 2 * |tags| + 3 * 0, 0, rounds[0]);
    }
  }
}
