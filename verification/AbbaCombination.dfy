/** Linear combinations of ABBA commitments with real scalars. */
module AbbaCombination {
  import opened Vectors
  import opened Ring
  import opened Quaternion
  import opened Abba
  import A = AntiFixed
  import J = Ajtai

  /** The sum of alpha_k * q_k over the first n elements. */
  function QComb(alphas: seq<Rq>, qs: seq<Quat>, n: nat): Quat
    requires n <= |alphas| && n <= |qs|
  {
    if n == 0 then QZERO else QPlus(QComb(alphas, qs, n - 1), QScale(alphas[n - 1], qs[n - 1]))
  }

  /** The traceless elements in row i. */
  function Expanded(basis: seq<Rq>, cs: seq<seq<Traceless>>, i: nat): (qs: seq<Quat>)
    requires |basis| == A.N_REAL && forall k :: 0 <= k < |cs| ==> i < |cs[k]|
    ensures |qs| == |cs|
  {
    seq(|cs|, k requires 0 <= k < |cs| => Expand(basis, cs[k][i]))
  }

  /** Elements that row i of the commitments stands for. */
  ghost predicate StandFor(cs: seq<seq<Traceless>>, i: nat, qs: seq<Quat>)
    requires forall k :: 0 <= k < |cs| ==> i < |cs[k]|
  {
    && |qs| == |cs|
    && forall k :: 0 <= k < |cs| ==> AntiFixed(qs[k].a0) && Compress(qs[k]) == cs[k][i]
  }

  ghost predicate OneLength(cs: seq<seq<Traceless>>, kappa: nat) {
    forall k :: 0 <= k < |cs| ==> |cs[k]| == kappa
  }

  /** Every row holds the combination of the traceless elements it stands for. */
  ghost predicate IsCombination(alphas: seq<Rq>, cs: seq<seq<Traceless>>, kappa: nat, out: seq<Traceless>)
    requires |alphas| == |cs| && OneLength(cs, kappa)
  {
    && |out| == kappa
    && forall i, qs: seq<Quat> :: 0 <= i < kappa && StandFor(cs, i, qs) ==> out[i] == Compress(QComb(alphas, qs, |cs|))
  }

  /** `s_mul_add`: row by row. */
  method SMulAdd(basis: seq<Rq>, pivots: seq<nat>, acc: seq<Traceless>, alpha: Rq, c: seq<Traceless>)
    returns (out: seq<Traceless>)
    requires |basis| == A.N_REAL
    requires |pivots| == A.N_REAL && forall i :: 0 <= i < A.N_REAL ==> pivots[i] == A.Pivot(i)
    requires |acc| == |c|
    ensures |out| == |c|
    ensures forall i :: 0 <= i < |c| ==> out[i] == Plus(acc[i], Compress(QScale(alpha, Expand(basis, c[i]))))
  {
    hide Compress, Expand, QScale, Plus;
    out := acc;
    for i := 0 to |c|
      invariant |out| == |c|
      invariant forall k :: i <= k < |c| ==> out[k] == acc[k]
      invariant forall k :: 0 <= k < i ==> out[k] == Plus(acc[k], Compress(QScale(alpha, Expand(basis, c[k]))))
    {
      var scaled := ScaleOk(basis, pivots, alpha, c[i]);
      out := out[i := Plus(out[i], scaled)];
    }
  }

  /** `s_lincomb`. */
  method SLincomb(alphas: seq<Rq>, cs: seq<seq<Traceless>>) returns (r: J.Result<seq<Traceless>>)
    requires cs != [] ==> OneLength(cs, |cs[0]|)
    ensures r.Ok? <==> |alphas| == |cs| && cs != []
    ensures r.Ok? ==> IsCombination(alphas, cs, |cs[0]|, r.value)
    ensures alphas == [] || cs == [] ==> r == J.Err(J.EmptyInput)
    ensures alphas != [] && cs != [] && |alphas| != |cs| ==> r == J.Err(J.SizeMismatch(|alphas|, |cs|))
  {
    if alphas == [] || cs == [] {
      return J.Err(J.EmptyInput);
    }
    if |alphas| != |cs| {
      return J.Err(J.SizeMismatch(|alphas|, |cs|));
    }
    var basis, pivots := A.BuildAntiFixedBasis();
    BasisSize(basis);
    hide A.IsBasis, Compress, Expand, QScale, Plus, QPlus;
    var kappa := |cs[0]|;
    var acc: seq<Traceless> := seq(kappa, i => Zeros(T0_DIM));
    CompressZero();
    for n := 0 to |cs|
      invariant |acc| == kappa
      invariant forall i :: 0 <= i < kappa ==> acc[i] == Compress(QComb(alphas, Expanded(basis, cs, i), n))
    {
      ghost var before := acc;
      acc := SMulAdd(basis, pivots, acc, alphas[n], cs[n]);
      forall i | 0 <= i < kappa
        ensures acc[i] == Compress(QComb(alphas, Expanded(basis, cs, i), n + 1))
      {
        CompressPlus(QComb(alphas, Expanded(basis, cs, i), n), QScale(alphas[n], Expand(basis, cs[n][i])));
      }
    }
    forall i, qs: seq<Quat> | 0 <= i < kappa && StandFor(cs, i, qs)
      ensures acc[i] == Compress(QComb(alphas, qs, |cs|))
    {
      ExpandedIs(basis, cs, i, qs);
    }
    r := J.Ok(acc);
  }

  lemma ExpandedIs(basis: seq<Rq>, cs: seq<seq<Traceless>>, i: nat, qs: seq<Quat>)
    requires A.IsBasis(basis) && |basis| == A.N_REAL
    requires (forall k :: 0 <= k < |cs| ==> i < |cs[k]|) && StandFor(cs, i, qs)
    ensures Expanded(basis, cs, i) == qs
  {
    hide A.IsBasis, Compress, Expand, AntiFixed;
    forall k | 0 <= k < |cs|
      ensures Expand(basis, cs[k][i]) == qs[k]
    {
      ExpandCompress(basis, qs[k]);
    }
  }

  // ----- combinations of commitments -----

  function Commitments(rows: seq<seq<Quat>>, zs: seq<seq<Rq>>, m: nat): (cs: seq<seq<Traceless>>)
    requires J.SameLength(zs, m) && forall i :: 0 <= i < |rows| ==> |rows[i]| == m
    ensures |cs| == |zs| && OneLength(cs, |rows|)
  {
    seq(|zs|, k requires 0 <= k < |zs| => AbbaSpec(rows, zs[k]))
  }

  lemma CommutatorPlus(a: Quat, y: Rq, z: Rq)
    ensures Commutator(a, Embed(Plus(y, z))) == QPlus(Commutator(a, Embed(y)), Commutator(a, Embed(z)))
  {
    hide Times, Plus, Minus, Commutator, Theta;
    CommutatorWithColumn(a, Plus(y, z));
    CommutatorWithColumn(a, y);
    CommutatorWithColumn(a, z);
    ThetaPlus(y, z);
    var t := Theta(a.a1);
    TimesPlus(a.a1, Theta(y), Theta(z));
    TimesPlus(t, y, z);
    A.MinusPlus(Times(a.a1, Theta(y)), Times(a.a1, Theta(z)), Times(t, y), Times(t, z));
    var d := Minus(Theta(a.a0), a.a0);
    TimesComm(d, y);
    TimesComm(d, z);
    TimesComm(d, Plus(y, z));
    TimesPlus(d, y, z);
  }

  lemma {:induction false} RowSumPlus(keys: seq<Quat>, y: seq<Rq>, z: seq<Rq>, n: nat)
    requires n <= |keys| && |y| == |z| && n <= |z|
    ensures RowSum(keys, J.SPlus(y, z), n) == QPlus(RowSum(keys, y, n), RowSum(keys, z, n))
  {
    hide Plus, Commutator;
    if n == 0 {
      PlusZeros(Zero);
    } else {
      RowSumPlus(keys, y, z, n - 1);
      CommutatorPlus(keys[n - 1], y[n - 1], z[n - 1]);
      QPlusSwap(RowSum(keys, y, n - 1), RowSum(keys, z, n - 1),
                Commutator(keys[n - 1], Embed(y[n - 1])), Commutator(keys[n - 1], Embed(z[n - 1])));
    }
  }

  lemma QPlusSwap(p: Quat, q: Quat, r: Quat, s: Quat)
    ensures QPlus(QPlus(p, q), QPlus(r, s)) == QPlus(QPlus(p, r), QPlus(q, s))
  {
    PlusSwap(p.a0, q.a0, r.a0, s.a0);
    PlusSwap(p.a1, q.a1, r.a1, s.a1);
  }

  lemma PlusSwap(p: Rq, q: Rq, r: Rq, s: Rq)
    ensures Plus(Plus(p, q), Plus(r, s)) == Plus(Plus(p, r), Plus(q, s))
  {}

  ghost predicate AllReal(alphas: seq<Rq>) { forall k :: 0 <= k < |alphas| ==> Theta(alphas[k]) == alphas[k] }

  /** Row sums of one row of keys. */
  function Sums(keys: seq<Quat>, zs: seq<seq<Rq>>, m: nat): (qs: seq<Quat>)
    requires |keys| == m && J.SameLength(zs, m)
    ensures |qs| == |zs|
  {
    seq(|zs|, k requires 0 <= k < |zs| => RowSum(keys, zs[k], m))
  }

  lemma {:induction false} RowSumOfCombination(keys: seq<Quat>, alphas: seq<Rq>, zs: seq<seq<Rq>>, m: nat, n: nat)
    requires |keys| == m && J.SameLength(zs, m) && n <= |alphas| && n <= |zs| && AllReal(alphas)
    ensures RowSum(keys, J.LinComb(alphas, zs, m, n), m) == QComb(alphas, Sums(keys, zs, m), n)
  {
    hide Theta, QScale, Commutator, Times, Plus;
    if n == 0 {
      NoColumns(keys, m, m);
    } else {
      RowSumOfCombination(keys, alphas, zs, m, n - 1);
      RowSumScales(keys, alphas[n - 1], zs[n - 1], m);
      assert ScaleColumns(alphas[n - 1], zs[n - 1]) == J.SScale(alphas[n - 1], zs[n - 1]);
      RowSumPlus(keys, J.LinComb(alphas, zs, m, n - 1), J.SScale(alphas[n - 1], zs[n - 1]), m);
    }
  }

  lemma {:induction false} NoColumns(keys: seq<Quat>, m: nat, n: nat)
    requires n <= |keys| && n <= m
    ensures RowSum(keys, J.SZeros(m), n) == QZERO
  {
    hide Commutator;
    if n != 0 {
      NoColumns(keys, m, n - 1);
      ZeroColumn(keys[n - 1]);
      PlusZeros(Zero);
    }
  }

  /**
   The combination of commitments with scalars fixed by theta is the commitment of the combined
   columns, for any number of terms.
   */
  lemma CombinationOfCommitments(rows: seq<seq<Quat>>, alphas: seq<Rq>, zs: seq<seq<Rq>>, m: nat, c: seq<Traceless>)
    requires |alphas| == |zs| && AllReal(alphas)
    requires J.SameLength(zs, m) && forall i :: 0 <= i < |rows| ==> |rows[i]| == m
    requires IsCombination(alphas, Commitments(rows, zs, m), |rows|, c)
    ensures c == AbbaSpec(rows, J.LinComb(alphas, zs, m, |zs|))
  {
    hide Compress, RowSum, QComb, J.LinComb, AllReal;
    var cs := Commitments(rows, zs, m);
    forall i | 0 <= i < |rows|
      ensures c[i] == Compress(RowSum(rows[i], J.LinComb(alphas, zs, m, |zs|), m))
    {
      RowSumOfCombination(rows[i], alphas, zs, m, |zs|);
      var qs := Sums(rows[i], zs, m);
      forall k | 0 <= k < |zs|
        ensures AntiFixed(qs[k].a0) && Compress(qs[k]) == cs[k][i]
      {
        RowSumTraceless(rows[i], zs[k], m);
      }
      assert StandFor(cs, i, qs);
    }
  }
}
