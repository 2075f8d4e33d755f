/** The folding loop: norm check, combination, split, recommitment and the split checks. */
module ChunkFold {
  import opened Field
  import opened Vectors
  import opened Ring
  import opened Rotations
  import opened Ajtai
  import opened Digits
  import opened Norms
  import opened Fold

  // ----- the combined witness, in place -----

  method FromColumns(z: seq<Rq>) returns (a: array2<Fq>)
    ensures fresh(a) && a.Length0 == D && a.Length1 == |z| && ColumnsOf(a) == z
  {
    a := new Fq[D, |z|]((r, j) requires 0 <= r < D && 0 <= j < |z| => z[j][r]);
    assert forall j :: 0 <= j < |z| ==> ColumnOf(a, j) == z[j];
  }

  method RotationMatrix(rho: Rq) returns (a: array2<Fq>)
    ensures fresh(a) && IsRotation(a, rho)
  {
    a := RotFromCoeffs(rho, PHI_GL);
    forall j | 0 <= j < D
      ensures PhiShiftN(PHI_GL, j, rho) == ShiftN(j, rho)
    {
      PhiShiftNGoldilocks(j, rho);
    }
  }

  method RowMajorEntries(a: array2<Fq>) returns (f: Vec)
    requires a.Length0 == D
    ensures f == Flat(ColumnsOf(a))
  {
    f := Flat(ColumnsOf(a));
  }

  /** The sum of rot(rho_i) * Z_i, accumulated in place, in row-major order. */
  method MixWitness(rhos: seq<Rq>, zs: seq<seq<Rq>>, m: nat) returns (f: Vec)
    requires |rhos| == |zs| && SameLength(zs, m)
    ensures f == Flat(LinComb(rhos, zs, m, |zs|))
  {
    hide LinComb, SPlus, SScale, Flat, IsRotation;
    var acc := FromColumns(SZeros(m));
    NoTerms(rhos, zs, m);
    for i := 0 to |zs|
      invariant fresh(acc) && acc.Length0 == D && acc.Length1 == m && ColumnsOf(acc) == LinComb(rhos, zs, m, i)
    {
      hide ColumnsOf;
      var rho := RotationMatrix(rhos[i]);
      var a := FromColumns(zs[i]);
      LeftMulAcc(acc, rho, a, rhos[i]);
      NextTerm(rhos, zs, m, i);
    }
    f := RowMajorEntries(acc);
  }

  lemma NoTerms(rhos: seq<Rq>, zs: seq<seq<Rq>>, m: nat)
    requires SameLength(zs, m)
    ensures LinComb(rhos, zs, m, 0) == SZeros(m)
  {}

  lemma NextTerm(rhos: seq<Rq>, zs: seq<seq<Rq>>, m: nat, i: nat)
    requires i < |rhos| && i < |zs| && SameLength(zs, m)
    ensures LinComb(rhos, zs, m, i + 1) == SPlus(LinComb(rhos, zs, m, i), SScale(rhos[i], zs[i]))
  {}

  // ----- recommitment -----

  datatype ChildResult = Committed(cs: seq<Commitment>) | FlagMismatch | NoChildren

  /** `commit_split_children`: children flagged as zero share the commitment of the zero witness. */
  method CommitChildren(pp: PP, zs: seq<seq<Rq>>, nonzero: seq<bool>) returns (r: ChildResult)
    requires pp.Valid() && SameLength(zs, pp.m)
    requires |nonzero| == |zs| ==> forall i :: 0 <= i < |zs| && !nonzero[i] ==> zs[i] == SZeros(pp.m)
    ensures r.FlagMismatch? <==> |zs| != |nonzero|
    ensures r.NoChildren? <==> |zs| == |nonzero| && zs == []
    ensures r.Committed? ==> r.cs == Commitments(pp.rows, zs, pp.m)
  {
    if |zs| != |nonzero| {
      return FlagMismatch;
    }
    if zs == [] {
      return NoChildren;
    }
    hide CommitSpec;
    var zero := CommitMaskedCt(pp, SZeros(pp.m));
    var cs: seq<Commitment> := [];
    for i := 0 to |zs|
      invariant |cs| == i
      invariant forall k :: 0 <= k < i ==> cs[k] == CommitSpec(pp.rows, zs[k])
    {
      var c := zero;
      if nonzero[i] {
        c := CommitMaskedCt(pp, zs[i]);
      }
      cs := cs + [c];
    }
    assert cs == Commitments(pp.rows, zs, pp.m);
    r := Committed(cs);
  }

  // ----- recombination checks -----

  /** `combine_b_pows`. */
  method CombineBPows(cs: seq<Commitment>, b: nat, n: nat) returns (acc: Commitment)
    requires SameLength(cs, n) && b < Q
    ensures acc == LinComb(PowRhos(b, |cs|), cs, n, |cs|)
  {
    hide LinComb, SPlus, SScale, PowRho, Mul;
    acc := SZeros(n);
    NoTerms(PowRhos(b, |cs|), cs, n);
    var pow: Fq := 1;
    PowStart(b);
    for i := 0 to |cs|
      invariant |acc| == n && acc == LinComb(PowRhos(b, |cs|), cs, n, i)
      invariant pow == Red(Pow(b, i))
    {
      PowStep(b, i);
      ScaledTerm(acc, cs[i], b, i);
      NextTerm(PowRhos(b, |cs|), cs, n, i);
      acc := ScaleAdd(acc, pow, cs[i]);
      pow := Mul(pow, b);
    }
  }

  lemma PowStart(b: nat)
    ensures Red(Pow(b, 0)) == 1
  {}

  lemma PowStep(b: nat, i: nat)
    requires b < Q
    ensures Red(Pow(b, i + 1)) == Mul(Red(Pow(b, i)), b)
  {
    hide Red, Mul;
    RedMul(b, Pow(b, i));
    RedCanonical(b);
    MulComm(b, Red(Pow(b, i)));
  }

  lemma ScaledTerm(acc: Commitment, c: Commitment, b: nat, i: nat)
    requires |acc| == |c|
    ensures forall k :: 0 <= k < |c| ==>
      SPlus(acc, SScale(PowRho(b, i), c))[k] == Plus(acc[k], Scale(Red(Pow(b, i)), c[k]))
  {
    hide Times, Red, Plus, Scale;
    forall k | 0 <= k < |c|
      ensures SPlus(acc, SScale(PowRho(b, i), c))[k] == Plus(acc[k], Scale(Red(Pow(b, i)), c[k]))
    {
      ScalarTimes(Red(Pow(b, i)), c[k]);
    }
  }

  /** `scale_commitment_add_inplace`. */
  method ScaleAdd(acc: Commitment, s: Fq, c: Commitment) returns (r: Commitment)
    requires |acc| == |c|
    ensures |r| == |c| && forall k :: 0 <= k < |c| ==> r[k] == Plus(acc[k], Scale(s, c[k]))
  {
    hide Plus, Scale;
    r := acc;
    for k := 0 to |c|
      invariant |r| == |c|
      invariant forall i :: 0 <= i < |c| ==> r[i] == if i < k then Plus(acc[i], Scale(s, c[i])) else acc[i]
    {
      r := r[k := Plus(r[k], Scale(s, c[k]))];
    }
  }

  /** What a valid split opening is. */
  ghost predicate SplitOpens(pp: PP, c: Commitment, b: nat, cs: seq<Commitment>, zs: seq<seq<Rq>>)
    requires pp.Valid()
  {
    && |cs| == |zs| && SameLength(cs, |c|) && SameLength(zs, pp.m)
    && LinComb(PowRhos(b, |cs|), cs, |c|, |cs|) == c
    && CommitSpec(pp.rows, LinComb(PowRhos(b, |zs|), zs, pp.m, |zs|)) == c
  }

  method AllOfLength(cs: seq<seq<Rq>>, n: nat) returns (ok: bool)
    ensures ok <==> SameLength(cs, n)
  {
    for i := 0 to |cs|
      invariant forall k :: 0 <= k < i ==> |cs[k]| == n
    {
      if |cs[i]| != n {
        return false;
      }
    }
    ok := true;
  }

  /** `verify_split_open`. */
  method VerifySplitOpen(pp: PP, c: Commitment, b: nat, cs: seq<Commitment>, zs: seq<seq<Rq>>) returns (ok: bool)
    requires pp.Valid() && b < Q
    ensures ok <==> SplitOpens(pp, c, b, cs, zs)
  {
    hide LinComb, PowRhos, CommitSpec;
    if |cs| != |zs| {
      return false;
    }
    var shapes := AllOfLength(cs, |c|);
    if !shapes {
      return false;
    }
    var acc := CombineBPows(cs, b, |c|);
    if acc != c {
      return false;
    }
    var lengths := AllOfLength(zs, pp.m);
    if !lengths {
      return false;
    }
    var z := CombineBPows(zs, b, pp.m);
    var again := CommitMaskedCt(pp, z);
    ok := again == c;
  }

  /** The children of a witness in range open its commitment. */
  lemma HonestSplitOpens(pp: PP, z: seq<Rq>, b: nat, k: nat)
    requires pp.Valid() && |z| == pp.m && b >= 2 && SmallWitness(z, MaxRep(b, k))
    ensures SplitOpens(pp, CommitSpec(pp.rows, z), b, Commitments(pp.rows, Children(z, b, k), pp.m), Children(z, b, k))
  {
    ChildClaimsRecombine(pp.rows, z, b, k);
    ChildrenRecombine(z, b, k);
    hide LinComb, CommitSpec, Children, PowRhos, SmallWitness;
  }

  // ----- one chunk -----

  datatype Params = Params(b: nat, kRho: nat, c: nat) {
    ghost predicate Valid() { 2 <= b < 0x1_0000_0000 }

    /** The expansion factor. */
    function T(): (t: nat)
      ensures forall alphabet: seq<int> :: MaxAbs(alphabet) == c ==> t == Expansion(alphabet)
    {
      2 * D * c
    }
  }

  datatype FoldResult =
    | Folded(parent: Commitment, children: seq<seq<Rq>>, childClaims: seq<Commitment>)
    | NormRejected(reason: Rejection)
    | NoChildWitness
    | SplitFailed

  /** The witnesses entering a chunk and their claims under the chunk's rows. */
  ghost predicate InputsOk(p: Params, pp: PP, rhos: seq<Rq>, zs: seq<seq<Rq>>) {
    && p.Valid() && pp.Valid() && |rhos| == |zs| && SameLength(zs, pp.m) && SmallChallenges(rhos, p.c)
    && forall i :: 0 <= i < |zs| ==> SmallWitness(zs[i], p.b / 2)
  }

  /** What a folded chunk hands on. */
  ghost predicate OutputsOk(p: Params, pp: PP, rhos: seq<Rq>, zs: seq<seq<Rq>>, r: FoldResult)
    requires InputsOk(p, pp, rhos, zs) && r.Folded?
  {
    var mix := LinComb(rhos, zs, pp.m, |zs|);
    && r.children == Children(mix, p.b, p.kRho)
    && SameLength(r.children, pp.m)
    && (forall i :: 0 <= i < |r.children| ==> SmallWitness(r.children[i], p.b / 2))
    && r.childClaims == Commitments(pp.rows, r.children, pp.m)
    && r.parent == CommitSpec(pp.rows, mix)
    && r.parent == LinComb(rhos, Commitments(pp.rows, zs, pp.m), |pp.rows|, |zs|)
    && r.parent == LinComb(PowRhos(p.b, p.kRho), r.childClaims, |pp.rows|, p.kRho)
    && SplitOpens(pp, r.parent, p.b, r.childClaims, r.children)
  }

  /** The norm check passes and there is at least one child. */
  ghost predicate ChunkAdmitted(p: Params, count: nat) {
    count != 0 && Guard(count, p.T(), p.b, p.kRho) && Pow(p.b, p.kRho) <= U128_MAX && p.kRho != 0
  }

  /** Sampling check, combination, split and recommitment of one chunk.  The split never fails. */
  method FoldChunk(p: Params, pp: PP, rhos: seq<Rq>, zs: seq<seq<Rq>>) returns (r: FoldResult)
    requires InputsOk(p, pp, rhos, zs)
    ensures r.Folded? <==> ChunkAdmitted(p, |zs|)
    ensures !r.SplitFailed?
    ensures r.NoChildWitness? <==> |zs| != 0 && Guard(|zs|, p.T(), p.b, 0) && p.kRho == 0
    ensures r.NormRejected? && r.reason.ByCount? <==> |zs| == 0
    ensures r.Folded? ==> OutputsOk(p, pp, rhos, zs, r)
  {
    hide OutputsOk, SmallWitness, SmallChallenges, Guard, LinComb, Flat;
    var check := CheckNormBound(|zs|, p.T(), p.b, p.kRho);
    if !check.NoRejection? {
      return NormRejected(check);
    }
    if p.kRho == 0 {
      return NoChildWitness;
    }
    ghost var mix := LinComb(rhos, zs, pp.m, |zs|);
    CombinationSplits(rhos, zs, pp.m, p.c, p.b, p.kRho);
    FlatRange(mix, MaxRep(p.b, p.kRho));
    var f := MixWitness(rhos, zs, pp.m);
    var split := SplitB(f, p.kRho, p.b);
    if !split.Split? {
      return SplitFailed;
    }
    r := Recommit(p, pp, rhos, zs, split.digits, split.nonzero);
  }

  method Recommit(p: Params, pp: PP, ghost rhos: seq<Rq>, ghost zs: seq<seq<Rq>>, digits: seq<Vec>, nonzero: seq<bool>)
    returns (r: FoldResult)
    requires InputsOk(p, pp, rhos, zs) && p.kRho != 0
    requires SmallWitness(LinComb(rhos, zs, pp.m, |zs|), MaxRep(p.b, p.kRho))
    requires var f := Flat(LinComb(rhos, zs, pp.m, |zs|));
             |digits| == |nonzero| == p.kRho && (forall i :: 0 <= i < p.kRho ==> |digits[i]| == |f|)
             && (forall i, j :: 0 <= i < p.kRho && 0 <= j < |f| ==> digits[i][j] == Red(Digit(Centered(f[j]), p.b, i)))
             && forall i :: 0 <= i < p.kRho ==>
                  (nonzero[i] <==> exists j :: 0 <= j < |f| && Digit(Centered(f[j]), p.b, i) != 0)
    ensures r.Folded? && OutputsOk(p, pp, rhos, zs, r)
  {
    hide LinComb, SmallWitness, SmallChallenges, CommitSpec, PowRhos, SplitOpens, Red, Digit, Centered;
    ghost var mix := LinComb(rhos, zs, pp.m, |zs|);
    var children := UnflattenAll(mix, digits, pp.m, p.b, p.kRho);
    forall i | 0 <= i < p.kRho && !nonzero[i]
      ensures children[i] == SZeros(pp.m)
    {
      ZeroChild(mix, p.b, i);
    }
    var committed := CommitChildren(pp, children, nonzero);
    var parent := CombineBPows(committed.cs, p.b, |pp.rows|);
    r := Folded(parent, children, committed.cs);
    ChunkOutputs(p, pp, rhos, zs, r);
  }

  method UnflattenAll(ghost mix: seq<Rq>, digits: seq<Vec>, m: nat, b: nat, k: nat) returns (children: seq<seq<Rq>>)
    requires b >= 2 && |digits| == k && m == |mix|
    requires forall i :: 0 <= i < k ==> |digits[i]| == D * m
    requires forall i, j :: 0 <= i < k && 0 <= j < D * m ==> digits[i][j] == Red(Digit(Centered(Flat(mix)[j]), b, i))
    ensures children == Children(mix, b, k)
  {
    hide Red, Digit, Centered, Flat, Unflat, Child;
    children := [];
    for i := 0 to k
      invariant |children| == i && forall n :: 0 <= n < i ==> children[n] == Child(mix, b, n)
    {
      SplitColumns(mix, b, i, digits[i]);
      children := children + [Unflat(digits[i], m)];
    }
  }

  /** A digit that is zero everywhere gives the zero child. */
  lemma ZeroChild(mix: seq<Rq>, b: nat, i: nat)
    requires b >= 2
    requires !exists j :: 0 <= j < |Flat(mix)| && Digit(Centered(Flat(mix)[j]), b, i) != 0
    ensures Child(mix, b, i) == SZeros(|mix|)
  {
    hide Digit, Centered, Red;
    RedCanonical(0);
    forall j, r | 0 <= j < |mix| && 0 <= r < D
      ensures Child(mix, b, i)[j][r] == 0
    {
      RowMajorIndex(r, j, |mix|);
      assert Flat(mix)[r * |mix| + j] == FlatAt(mix, r * |mix| + j);
    }
    assert forall j :: 0 <= j < |mix| ==> Child(mix, b, i)[j] == Zero;
  }

  lemma ChunkOutputs(p: Params, pp: PP, rhos: seq<Rq>, zs: seq<seq<Rq>>, r: FoldResult)
    requires InputsOk(p, pp, rhos, zs) && r.Folded?
    requires SmallWitness(LinComb(rhos, zs, pp.m, |zs|), MaxRep(p.b, p.kRho))
    requires r.children == Children(LinComb(rhos, zs, pp.m, |zs|), p.b, p.kRho)
    requires r.childClaims == Commitments(pp.rows, r.children, pp.m)
    requires r.parent == LinComb(PowRhos(p.b, p.kRho), r.childClaims, |pp.rows|, p.kRho)
    ensures OutputsOk(p, pp, rhos, zs, r)
  {
    hide LinComb, SmallWitness, SmallChallenges, CommitSpec, PowRhos, SplitOpens, Child;
    var mix := LinComb(rhos, zs, pp.m, |zs|);
    ChildClaimsRecombine(pp.rows, mix, p.b, p.kRho);
    LinCombOfCommitments(pp.rows, rhos, zs, pp.m, |zs|);
    HonestSplitOpens(pp, mix, p.b, p.kRho);
    forall i | 0 <= i < p.kRho
      ensures SmallWitness(r.children[i], p.b / 2)
    {
      ChildrenAreSmall(mix, p.b, i);
    }
  }

  // ----- whole runs -----

  /** Fresh witnesses and challenges of one chunk, and the rows its claims are stated for. */
  datatype Chunk = Chunk(pp: PP, added: seq<seq<Rq>>, rhos: seq<Rq>)

  ghost predicate ChunkOk(p: Params, m: nat, ch: Chunk, carried: nat) {
    && ch.pp.Valid() && ch.pp.m == m && |ch.rhos| == |ch.added| + carried
    && SmallChallenges(ch.rhos, p.c) && SameLength(ch.added, m)
    && forall i :: 0 <= i < |ch.added| ==> SmallWitness(ch.added[i], p.b / 2)
  }

  /** Number of witnesses carried into chunk t. */
  function Carried(p: Params, t: nat): nat { if t == 0 then 0 else p.kRho }

  /** What chunk t takes over from the chunk before it. */
  function Carry(folds: seq<FoldResult>, t: nat): seq<seq<Rq>>
    requires t <= |folds| && forall i :: 0 <= i < |folds| ==> folds[i].Folded?
  {
    if t == 0 then [] else folds[t - 1].children
  }

  function Inputs(ch: Chunk, carry: seq<seq<Rq>>): seq<seq<Rq>> { ch.added + carry }

  /** One chunk folded over the witnesses handed to it. */
  ghost predicate Link(p: Params, m: nat, ch: Chunk, carry: seq<seq<Rq>>, r: FoldResult) {
    && ch.pp.m == m && InputsOk(p, ch.pp, ch.rhos, Inputs(ch, carry))
    && ChunkAdmitted(p, |ch.rhos|) && r.Folded? && OutputsOk(p, ch.pp, ch.rhos, Inputs(ch, carry), r)
  }

  /** Every chunk folded, over its own witnesses and the children of the chunk before it. */
  ghost predicate RunOf(p: Params, m: nat, chunks: seq<Chunk>, folds: seq<FoldResult>) {
    && |folds| <= |chunks|
    && (forall i :: 0 <= i < |folds| ==> folds[i].Folded?)
    && forall t :: 0 <= t < |folds| ==> Link(p, m, chunks[t], Carry(folds, t), folds[t])
  }

  /** What is carried between chunks. */
  ghost predicate CarryOk(p: Params, m: nat, carry: seq<seq<Rq>>) {
    SameLength(carry, m) && forall i :: 0 <= i < |carry| ==> SmallWitness(carry[i], p.b / 2)
  }

  lemma ChunkInputs(p: Params, m: nat, ch: Chunk, carry: seq<seq<Rq>>)
    requires p.Valid() && ChunkOk(p, m, ch, |carry|) && CarryOk(p, m, carry)
    ensures ch.pp.m == m && InputsOk(p, ch.pp, ch.rhos, Inputs(ch, carry)) && |Inputs(ch, carry)| == |ch.rhos|
  {}

  lemma ChunkLinks(p: Params, m: nat, ch: Chunk, carry: seq<seq<Rq>>, r: FoldResult)
    requires ch.pp.m == m && InputsOk(p, ch.pp, ch.rhos, Inputs(ch, carry)) && ChunkAdmitted(p, |ch.rhos|)
    requires r.Folded? && OutputsOk(p, ch.pp, ch.rhos, Inputs(ch, carry), r)
    ensures Link(p, m, ch, carry, r) && CarryOk(p, m, r.children) && |r.children| == p.kRho
  {
    hide SmallWitness, LinComb, SplitOpens, SmallChallenges, ChunkAdmitted;
  }

  lemma ExtendRun(p: Params, m: nat, chunks: seq<Chunk>, folds: seq<FoldResult>, r: FoldResult)
    requires RunOf(p, m, chunks, folds) && |folds| < |chunks|
    requires Link(p, m, chunks[|folds|], Carry(folds, |folds|), r) && r.Folded?
    ensures RunOf(p, m, chunks, folds + [r])
  {
    hide *;
    var more := folds + [r];
    RunLinks(p, m, chunks, folds);
    forall t | 0 <= t < |more|
      ensures Link(p, m, chunks[t], Carry(more, t), more[t])
    {
      CarryStays(folds, r, t);
    }
    LinksMakeRun(p, m, chunks, more);
  }

  lemma RunLinks(p: Params, m: nat, chunks: seq<Chunk>, folds: seq<FoldResult>)
    requires RunOf(p, m, chunks, folds)
    ensures |folds| <= |chunks| && forall i :: 0 <= i < |folds| ==> folds[i].Folded?
    ensures forall t :: 0 <= t < |folds| ==> Link(p, m, chunks[t], Carry(folds, t), folds[t])
  {
    hide Link, Carry;
  }

  lemma LinksMakeRun(p: Params, m: nat, chunks: seq<Chunk>, folds: seq<FoldResult>)
    requires |folds| <= |chunks| && forall i :: 0 <= i < |folds| ==> folds[i].Folded?
    requires forall t :: 0 <= t < |folds| ==> Link(p, m, chunks[t], Carry(folds, t), folds[t])
    ensures RunOf(p, m, chunks, folds)
  {
    hide Link, Carry;
  }

  lemma CarryStays(folds: seq<FoldResult>, r: FoldResult, t: nat)
    requires t <= |folds| && r.Folded? && forall i :: 0 <= i < |folds| ==> folds[i].Folded?
    ensures Carry(folds + [r], t) == Carry(folds, t)
  {
    assert t > 0 ==> (folds + [r])[t - 1] == folds[t - 1];
  }

  /**
   Chunks folded one after the other: each over the children of the one before it, with the claims
   and checks of a folded chunk.  The run stops only at a chunk whose witness count misses the norm
   check, never inside a split.
   */
  method FoldRun(p: Params, m: nat, chunks: seq<Chunk>) returns (folds: seq<FoldResult>, carry: seq<seq<Rq>>)
    requires p.Valid()
    requires forall t :: 0 <= t < |chunks| ==> ChunkOk(p, m, chunks[t], Carried(p, t))
    ensures RunOf(p, m, chunks, folds) && carry == Carry(folds, |folds|) && |carry| == Carried(p, |folds|)
    ensures |folds| < |chunks| ==> !ChunkAdmitted(p, |chunks[|folds|].rhos|)
  {
    hide ChunkAdmitted, SmallWitness, SmallChallenges, Link, OutputsOk, ChunkOk;
    folds, carry := [], [];
    while |folds| < |chunks|
      invariant RunOf(p, m, chunks, folds) && carry == Carry(folds, |folds|)
      invariant CarryOk(p, m, carry) && |carry| == Carried(p, |folds|)
      decreases |chunks| - |folds|
    {
      var ch := chunks[|folds|];
      ChunkInputs(p, m, ch, carry);
      var r := FoldChunk(p, ch.pp, ch.rhos, Inputs(ch, carry));
      if !r.Folded? {
        return;
      }
      ChunkLinks(p, m, ch, carry, r);
      ExtendRun(p, m, chunks, folds, r);
      folds, carry := folds + [r], r.children;
    }
  }

  // ----- what a run folds -----

  lemma {:induction false} SameTerms(rhos: seq<Rq>, cs: seq<seq<Rq>>, other: seq<Rq>, ds: seq<seq<Rq>>, n: nat, k: nat)
    requires SameLength(cs, n) && SameLength(ds, n)
    requires k <= |rhos| && k <= |cs| && k <= |other| && k <= |ds|
    requires forall i :: 0 <= i < k ==> rhos[i] == other[i] && cs[i] == ds[i]
    ensures LinComb(rhos, cs, n, k) == LinComb(other, ds, n, k)
  {
    hide SPlus, SScale;
    if k != 0 {
      SameTerms(rhos, cs, other, ds, n, k - 1);
    }
  }

  /** The first challenges meet the first list, the others the second one. */
  lemma {:induction false} TwoLists(rhos: seq<Rq>, a: seq<seq<Rq>>, b: seq<seq<Rq>>, n: nat, k: nat)
    requires SameLength(a, n) && SameLength(b, n) && k <= |b| && |a| + k <= |rhos|
    ensures LinComb(rhos, a + b, n, |a| + k)
         == SPlus(LinComb(rhos[..|a|], a, n, |a|), LinComb(rhos[|a|..], b, n, k))
  {
    hide SScale, Plus;
    var x := LinComb(rhos[..|a|], a, n, |a|);
    if k == 0 {
      SameTerms(rhos, a + b, rhos[..|a|], a, n, |a|);
      forall i | 0 <= i < n
        ensures Plus(x[i], Zero) == x[i]
      {
        PlusZeros(x[i]);
      }
    } else {
      TwoLists(rhos, a, b, n, k - 1);
      var y, z := LinComb(rhos[|a|..], b, n, k - 1), SScale(rhos[|a| + k - 1], b[k - 1]);
      assert (a + b)[|a| + k - 1] == b[k - 1];
      forall i | 0 <= i < n
        ensures Plus(Plus(x[i], y[i]), z[i]) == Plus(x[i], Plus(y[i], z[i]))
      {
        PlusAssoc(x[i], y[i], z[i]);
      }
    }
  }

  lemma InputsAre(p: Params, m: nat, chunks: seq<Chunk>, folds: seq<FoldResult>, t: nat) returns (inputs: seq<seq<Rq>>)
    requires RunOf(p, m, chunks, folds) && t < |folds|
    ensures |folds| <= |chunks| && forall i :: 0 <= i < |folds| ==> folds[i].Folded?
    ensures inputs == Inputs(chunks[t], Carry(folds, t)) == chunks[t].added + if t == 0 then [] else folds[t - 1].children
    ensures SameLength(inputs, m) && |inputs| == |chunks[t].rhos| && chunks[t].pp.m == m
    ensures InputsOk(p, chunks[t].pp, chunks[t].rhos, inputs) && ChunkAdmitted(p, |inputs|)
    ensures OutputsOk(p, chunks[t].pp, chunks[t].rhos, inputs, folds[t]) && |folds[t].children| == p.kRho
    ensures t > 0 ==> |folds[t - 1].children| == p.kRho
  {
    inputs := Inputs(chunks[t], Carry(folds, t));
    hide SmallWitness, SmallChallenges, LinComb, SplitOpens, Guard, Child;
    assert Link(p, m, chunks[t], Carry(folds, t), folds[t]);
    if t > 0 {
      assert Link(p, m, chunks[t - 1], Carry(folds, t - 1), folds[t - 1]);
    }
  }

  /**
   What every chunk of a run splits: its first challenges meet its fresh witnesses in order, the
   others the children of the chunk before it.
   */
  lemma RunMixes(p: Params, m: nat, chunks: seq<Chunk>, folds: seq<FoldResult>, t: nat)
    requires RunOf(p, m, chunks, folds) && t < |folds|
    ensures var (added, rhos, n) := (chunks[t].added, chunks[t].rhos, |chunks[t].added|);
            && SameLength(added, m) && folds[t].Folded?
            && |rhos| == n + (if t == 0 then 0 else |folds[t - 1].children|)
            && (t == 0 ==> folds[0].children == Children(LinComb(rhos, added, m, n), p.b, p.kRho))
            && (t > 0 ==>
                 var carried := folds[t - 1].children;
                 SameLength(carried, m) && folds[t].children
                 == Children(SPlus(LinComb(rhos[..n], added, m, n), LinComb(rhos[n..], carried, m, |carried|)), p.b, p.kRho))
  {
    hide RunOf, OutputsOk, ChunkAdmitted, InputsOk;
    var inputs := InputsAre(p, m, chunks, folds, t);
    var added, rhos, n := chunks[t].added, chunks[t].rhos, |chunks[t].added|;
    ChildrenOfMix(p, chunks[t].pp, rhos, inputs, folds[t]);
    hide Children, LinComb, SPlus;
    PartsFit(added, inputs, m);
    if t == 0 {
      assert inputs == added;
    } else {
      TwoLists(rhos, added, folds[t - 1].children, m, p.kRho);
    }
  }

  lemma ChildrenOfMix(p: Params, pp: PP, rhos: seq<Rq>, zs: seq<seq<Rq>>, r: FoldResult)
    requires InputsOk(p, pp, rhos, zs) && r.Folded? && OutputsOk(p, pp, rhos, zs, r)
    ensures r.children == Children(LinComb(rhos, zs, pp.m, |zs|), p.b, p.kRho) && SameLength(r.children, pp.m)
  {}

  lemma PartsFit(a: seq<seq<Rq>>, all: seq<seq<Rq>>, m: nat)
    requires a <= all && SameLength(all, m)
    ensures SameLength(a, m) && SameLength(all[|a|..], m)
  {
    assert forall i :: 0 <= i < |a| ==> a[i] == all[i];
  }

  /**
   All linear values recombine along a run, for every matrix of ring elements, be it the keys of a
   commitment or the rows of an opening: the values of the fresh witnesses with the first challenges
   and the values of the carried children with the others add up to the b-power combination of the
   values of the new children.
   */
  lemma RunRecombines(p: Params, m: nat, chunks: seq<Chunk>, folds: seq<FoldResult>, t: nat, rows: seq<seq<Rq>>)
    requires RunOf(p, m, chunks, folds) && t < |folds| && SameLength(rows, m)
    ensures var (added, rhos, n, k) := (chunks[t].added, chunks[t].rhos, |chunks[t].added|, |rows|);
            && SameLength(added, m) && folds[t].Folded? && SameLength(folds[t].children, m)
            && |folds[t].children| == p.kRho
            && |rhos| == n + (if t == 0 then 0 else |folds[t - 1].children|)
            && (t == 0 ==>
                 LinComb(rhos, Commitments(rows, added, m), k, n)
                 == LinComb(PowRhos(p.b, p.kRho), Commitments(rows, folds[t].children, m), k, p.kRho))
            && (t > 0 ==>
                 var carried := folds[t - 1].children;
                 SameLength(carried, m)
                 && SPlus(LinComb(rhos[..n], Commitments(rows, added, m), k, n),
                          LinComb(rhos[n..], Commitments(rows, carried, m), k, |carried|))
                    == LinComb(PowRhos(p.b, p.kRho), Commitments(rows, folds[t].children, m), k, p.kRho))
  {
    hide *;
    var inputs := InputsAre(p, m, chunks, folds, t);
    var ch := chunks[t];
    MixRecombines(p, ch.pp, ch.rhos, inputs, folds[t], rows);
    PartsFit(ch.added, inputs, m);
    if t == 0 {
      assert inputs == ch.added;
    } else {
      assert inputs[|ch.added|..] == folds[t - 1].children;
      ValuesOfParts(rows, ch.rhos, ch.added, folds[t - 1].children, m);
    }
  }

  lemma MixRecombines(p: Params, pp: PP, rhos: seq<Rq>, zs: seq<seq<Rq>>, r: FoldResult, rows: seq<seq<Rq>>)
    requires InputsOk(p, pp, rhos, zs) && r.Folded? && OutputsOk(p, pp, rhos, zs, r) && ChunkAdmitted(p, |zs|)
    requires SameLength(rows, pp.m)
    ensures SameLength(r.children, pp.m) && |r.children| == p.kRho
    ensures LinComb(rhos, Commitments(rows, zs, pp.m), |rows|, |zs|)
         == LinComb(PowRhos(p.b, p.kRho), Commitments(rows, r.children, pp.m), |rows|, p.kRho)
  {
    hide SmallWitness, SmallChallenges, LinComb, SplitOpens, PowRhos, MaxRep, Guard;
    CombinationSplits(rhos, zs, pp.m, p.c, p.b, p.kRho);
    LinCombOfCommitments(rows, rhos, zs, pp.m, |zs|);
    ChildClaimsRecombine(rows, LinComb(rhos, zs, pp.m, |zs|), p.b, p.kRho);
  }

  lemma ValuesOfParts(rows: seq<seq<Rq>>, rhos: seq<Rq>, a: seq<seq<Rq>>, b: seq<seq<Rq>>, m: nat)
    requires SameLength(rows, m) && SameLength(a, m) && SameLength(b, m) && |rhos| == |a| + |b|
    ensures SameLength(a + b, m)
    ensures LinComb(rhos, Commitments(rows, a + b, m), |rows|, |a| + |b|)
         == SPlus(LinComb(rhos[..|a|], Commitments(rows, a, m), |rows|, |a|),
                  LinComb(rhos[|a|..], Commitments(rows, b, m), |rows|, |b|))
  {
    CommitmentsOfParts(rows, a, b, m);
    JoinedLists(rhos, Commitments(rows, a + b, m), Commitments(rows, a, m), Commitments(rows, b, m), |rows|, |a|, |b|);
  }

  lemma JoinedLists(rhos: seq<Rq>, all: seq<seq<Rq>>, a: seq<seq<Rq>>, b: seq<seq<Rq>>, n: nat, i: nat, j: nat)
    requires SameLength(a, n) && SameLength(b, n) && SameLength(all, n)
    requires all == a + b && i == |a| && j == |b| && |rhos| == i + j
    ensures LinComb(rhos, all, n, i + j) == SPlus(LinComb(rhos[..i], a, n, i), LinComb(rhos[i..], b, n, j))
  {
    TwoLists(rhos, a, b, n, j);
  }

  lemma CommitmentsOfParts(rows: seq<seq<Rq>>, a: seq<seq<Rq>>, b: seq<seq<Rq>>, m: nat)
    requires SameLength(rows, m) && SameLength(a, m) && SameLength(b, m)
    ensures SameLength(a + b, m) && Commitments(rows, a + b, m) == Commitments(rows, a, m) + Commitments(rows, b, m)
  {
    hide CommitSpec;
  }
}
