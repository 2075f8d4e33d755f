/** Ajtai commitments: the dense commit loops and their S-homomorphism. */
module Ajtai {
  import opened Field
  import opened Vectors
  import opened Ring
  import opened Polynomials
  import opened Rotations

  /** Public parameters: kappa rows of m ring elements. */
  datatype PP = PP(d: nat, kappa: nat, m: nat, rows: seq<seq<Rq>>) {
    ghost predicate Valid() {
      d == D && |rows| == kappa && forall i :: 0 <= i < kappa ==> |rows[i]| == m
    }
  }

  /** A commitment: kappa columns of D coefficients. */
  type Commitment = seq<Rq>

  datatype AjtaiError = SizeMismatch(expected: nat, actual: nat) | InvalidDimensions | EmptyInput

  datatype Result<+T> = Ok(value: T) | Err(error: AjtaiError)

  // ----- specification -----

  /** The sum of row[j] * z[j] over lo <= j < hi. */
  function InnerProduct(row: seq<Rq>, z: seq<Rq>, lo: nat, hi: nat): Rq
    requires lo <= hi <= |row| && hi <= |z|
    decreases hi
  {
    if lo == hi then Zero
    else Plus(InnerProduct(row, z, lo, hi - 1), Times(row[hi - 1], z[hi - 1]))
  }

  /** The commitment of witness columns z: the matrix of ring elements times z. */
  function CommitSpec(rows: seq<seq<Rq>>, z: seq<Rq>): (c: Commitment)
    requires forall i :: 0 <= i < |rows| ==> |rows[i]| == |z|
    ensures |c| == |rows|
  {
    seq(|rows|, i requires 0 <= i < |rows| => InnerProduct(rows[i], z, 0, |z|))
  }

  /** Ring scalar times a column of ring elements. */
  function SScale(rho: Rq, c: seq<Rq>): (r: seq<Rq>)
    ensures |r| == |c|
  {
    seq(|c|, i requires 0 <= i < |c| => Times(rho, c[i]))
  }

  function SPlus(a: seq<Rq>, b: seq<Rq>): (r: seq<Rq>)
    requires |a| == |b|
    ensures |r| == |a|
  {
    seq(|a|, i requires 0 <= i < |a| => Plus(a[i], b[i]))
  }

  function SZeros(n: nat): (r: seq<Rq>)
    ensures |r| == n
  {
    seq(n, i => Zero)
  }

  ghost predicate SameLength(cs: seq<seq<Rq>>, n: nat) {
    forall i :: 0 <= i < |cs| ==> |cs[i]| == n
  }

  /** The first k terms of the combination of rhos[i] * cs[i]. */
  function LinComb(rhos: seq<Rq>, cs: seq<seq<Rq>>, n: nat, k: nat): (r: seq<Rq>)
    requires k <= |rhos| && k <= |cs| && SameLength(cs, n)
    ensures |r| == n
  {
    if k == 0 then SZeros(n)
    else SPlus(LinComb(rhos, cs, n, k - 1), SScale(rhos[k - 1], cs[k - 1]))
  }

  /** Entry c of a combination is the inner product of the challenges with the entries c. */
  lemma {:induction false} LinCombIsInner(rhos: seq<Rq>, cs: seq<seq<Rq>>, n: nat, k: nat, c: nat, column: seq<Rq>)
    requires k <= |rhos| && k <= |cs| && SameLength(cs, n) && c < n
    requires |column| == |cs| && forall i :: 0 <= i < |cs| ==> column[i] == cs[i][c]
    ensures LinComb(rhos, cs, n, k)[c] == InnerProduct(rhos, column, 0, k)
  {
    hide Times, Plus;
    if k != 0 {
      LinCombIsInner(rhos, cs, n, k - 1, c, column);
    }
  }

  /** The commitment of a single X^t in column j is the rotated key of that column, row by row. */
  lemma CommitOfMonomial(rows: seq<seq<Rq>>, m: nat, j: nat, t: nat, i: nat)
    requires SameLength(rows, m) && j < m && t < D && i < |rows|
    ensures CommitSpec(rows, SZeros(m)[j := Mono(t)])[i] == ShiftN(t, rows[i][j])
  {
    hide Times, Plus, InnerProduct, Mono;
    var z := SZeros(m)[j := Mono(t)];
    SingleTerm(rows[i], z, j, m);
    TimesMono(rows[i][j], t);
  }

  lemma {:induction false} SingleTerm(row: seq<Rq>, z: seq<Rq>, j: nat, n: nat)
    requires j < |row| == |z| && n <= |z| && forall k :: 0 <= k < |z| && k != j ==> z[k] == Zero
    ensures InnerProduct(row, z, 0, n) == if j < n then Times(row[j], z[j]) else Zero
  {
    hide Times, Plus;
    if n != 0 {
      SingleTerm(row, z, j, n - 1);
      TimesOne(row[n - 1]);
      PlusZeros(Zero);
      PlusZeros(Times(row[j], z[j]));
    }
  }

  // ----- the commit loops -----

  /** `acc_mul_add_inplace`, with its branches on the scalar and its unrolled loops. */
  method AccMulAdd(acc: Rq, col: Rq, scalar: Fq) returns (r: Rq)
    ensures r == Plus(acc, Scale(scalar, col))
  {
    hide Mul;
    r := acc;
    if scalar == 0 {
      ScaleOne(col);
      PlusZeros(acc);
      return;
    }
    if scalar == 1 {
      var k := 0;
      while k + 3 < D
        invariant 0 <= k <= D
        invariant forall i :: 0 <= i < D ==> r[i] == if i < k then Add(acc[i], col[i]) else acc[i]
      {
        r := r[k := Add(r[k], col[k])];
        r := r[k + 1 := Add(r[k + 1], col[k + 1])];
        r := r[k + 2 := Add(r[k + 2], col[k + 2])];
        r := r[k + 3 := Add(r[k + 3], col[k + 3])];
        k := k + 4;
      }
      while k < D
        invariant 0 <= k <= D
        invariant forall i :: 0 <= i < D ==> r[i] == if i < k then Add(acc[i], col[i]) else acc[i]
      {
        r := r[k := Add(r[k], col[k])];
        k := k + 1;
      }
      ScaleOne(col);
      assert r == Plus(acc, col);
      return;
    }
    if scalar == Sub(0, 1) {
      var k := 0;
      while k + 3 < D
        invariant 0 <= k <= D
        invariant forall i :: 0 <= i < D ==> r[i] == if i < k then Sub(acc[i], col[i]) else acc[i]
      {
        r := r[k := Sub(r[k], col[k])];
        r := r[k + 1 := Sub(r[k + 1], col[k + 1])];
        r := r[k + 2 := Sub(r[k + 2], col[k + 2])];
        r := r[k + 3 := Sub(r[k + 3], col[k + 3])];
        k := k + 4;
      }
      while k < D
        invariant 0 <= k <= D
        invariant forall i :: 0 <= i < D ==> r[i] == if i < k then Sub(acc[i], col[i]) else acc[i]
      {
        r := r[k := Sub(r[k], col[k])];
        k := k + 1;
      }
      ScaleMinusOne(acc, col);
      assert r == Minus(acc, col);
      return;
    }
    var k := 0;
    while k + 3 < D
      invariant 0 <= k <= D
      invariant forall i :: 0 <= i < D ==> r[i] == if i < k then Add(acc[i], Mul(scalar, col[i])) else acc[i]
    {
      r := r[k := Add(r[k], Mul(scalar, col[k]))];
      r := r[k + 1 := Add(r[k + 1], Mul(scalar, col[k + 1]))];
      r := r[k + 2 := Add(r[k + 2], Mul(scalar, col[k + 2]))];
      r := r[k + 3 := Add(r[k + 3], Mul(scalar, col[k + 3]))];
      k := k + 4;
    }
    while k < D
      invariant 0 <= k <= D
      invariant forall i :: 0 <= i < D ==> r[i] == if i < k then Add(acc[i], Mul(scalar, col[i])) else acc[i]
    {
      r := r[k := Add(r[k], Mul(scalar, col[k]))];
      k := k + 1;
    }
  }

  lemma ScaleMinusOne(u: Vec, v: Vec)
    requires |u| == |v|
    ensures Plus(u, Scale(Sub(0, 1), v)) == Minus(u, v)
  {
    forall i | 0 <= i < |v|
      ensures Add(u[i], Mul(Sub(0, 1), v[i])) == Sub(u[i], v[i])
    {
      MulNeg(1, v[i]);
      MulOne(v[i]);
      hide Mul;
    }
  }

  /** One message column against one key: the running accumulator gains key * column. */
  method AccumulateColumn(acc: array<Fq>, a: Rq, z: Rq)
    requires acc.Length == D
    modifies acc
    ensures acc[..] == Plus(old(acc[..]), Times(a, z))
  {
    var col := new Fq[D](i requires 0 <= i < D => a[i]);
    var nxt := new Fq[D](i => 0);
    assert col[..] == a;
    ghost var start := acc[..];
    TimesComm(a, z);
    for t := 0 to D
      invariant fresh(col) && fresh(nxt) && col != nxt && col != acc && nxt != acc
      invariant col.Length == nxt.Length == D
      invariant Plus(acc[..], Act(z[t..], col[..])) == Plus(start, Act(z, a))
    {
      ghost var before, rot := acc[..], col[..];
      var mask := z[t];
      for r := 0 to D
        invariant col[..] == rot
        invariant forall i :: 0 <= i < D ==> acc[i] == if i < r then Add(before[i], Mul(mask, rot[i])) else before[i]
      {
        acc[r] := Add(acc[r], Mul(mask, col[r]));
      }
      assert acc[..] == Plus(before, Scale(mask, rot));
      RotStep(col, nxt);
      col, nxt := nxt, col;
      assert z[t..][1..] == z[t + 1..];
      PlusAssoc(before, Scale(mask, rot), Act(z[t + 1..], Shift(rot)));
    }
    PlusZeros(acc[..]);
  }

  /** `commit_masked_ct`. */
  method CommitMaskedCt(pp: PP, z: seq<Rq>) returns (c: Commitment)
    requires pp.Valid() && |z| == pp.m
    ensures c == CommitSpec(pp.rows, z)
  {
    c := [];
    for i := 0 to pp.kappa
      invariant |c| == i
      invariant forall k :: 0 <= k < i ==> c[k] == InnerProduct(pp.rows[k], z, 0, pp.m)
    {
      var acc := new Fq[D](k => 0);
      assert acc[..] == Zero;
      for j := 0 to pp.m
        invariant acc[..] == InnerProduct(pp.rows[i], z, 0, j)
      {
        AccumulateColumn(acc, pp.rows[i][j], z[j]);
      }
      c := c + [acc[..]];
    }
  }

  /** `precompute_rot_columns`: cols[t] = a X^t. */
  method PrecomputeRotColumns(a: Rq) returns (cols: Columns)
    ensures cols == Rot(a)
  {
    var col := new Fq[D](i requires 0 <= i < D => a[i]);
    var nxt := new Fq[D](i => 0);
    assert col[..] == a;
    cols := [];
    for t := 0 to D
      invariant fresh(col) && fresh(nxt) && col != nxt && col.Length == nxt.Length == D
      invariant col[..] == ShiftN(t, a)
      invariant |cols| == t && forall k :: 0 <= k < t ==> cols[k] == ShiftN(k, a)
    {
      cols := cols + [col[..]];
      RotStep(col, nxt);
      col, nxt := nxt, col;
      ShiftNLast(t, a);
    }
  }

  /** How a parallel fold splits a range and joins the partial sums. */
  datatype Schedule = Sequential | Fork(left: Schedule, right: Schedule)

  lemma {:induction false} InnerProductSplit(row: seq<Rq>, z: seq<Rq>, lo: nat, mid: nat, hi: nat)
    requires lo <= mid <= hi <= |row| && hi <= |z|
    ensures InnerProduct(row, z, lo, hi) == Plus(InnerProduct(row, z, lo, mid), InnerProduct(row, z, mid, hi))
    decreases hi
  {
    if mid == hi {
      PlusZeros(InnerProduct(row, z, lo, hi));
    } else {
      InnerProductSplit(row, z, lo, mid, hi - 1);
      PlusAssoc(InnerProduct(row, z, lo, mid), InnerProduct(row, z, mid, hi - 1), Times(row[hi - 1], z[hi - 1]));
    }
  }

  /** Fold over a range with precomputed columns, for any split of the range. */
  method PrecompFold(row: seq<Rq>, z: seq<Rq>, lo: nat, hi: nat, schedule: Schedule) returns (acc: Rq)
    requires lo <= hi <= |row| && hi <= |z|
    ensures acc == InnerProduct(row, z, lo, hi)
    decreases schedule
  {
    match schedule
    case Fork(left, right) =>
      var mid := (lo + hi) / 2;
      var a := PrecompFold(row, z, lo, mid, left);
      var b := PrecompFold(row, z, mid, hi, right);
      InnerProductSplit(row, z, lo, mid, hi);
      acc := Plus(a, b);
    case Sequential =>
      acc := Zero;
      for j := lo to hi
        invariant acc == InnerProduct(row, z, lo, j)
      {
        var cols := PrecomputeRotColumns(row[j]);
        ghost var before := acc;
        assert z[j][..0] == [];
        PlusZeros(before);
        for t := 0 to D
          invariant acc == Plus(before, Act(z[j][..t], row[j]))
        {
          acc := Plus(acc, Scale(z[j][t], cols[t]));
          assert z[j][..t + 1] == z[j][..t] + [z[j][t]];
          ActAppend(z[j][..t], [z[j][t]], row[j]);
          ActSingle(z[j][t], ShiftN(t, row[j]));
          PlusAssoc(before, Act(z[j][..t], row[j]), Scale(z[j][t], cols[t]));
        }
        assert z[j][..D] == z[j];
        TimesComm(row[j], z[j]);
      }
  }

  /** `commit_precomp_ct`. */
  method CommitPrecompCt(pp: PP, z: seq<Rq>, schedule: Schedule) returns (c: Commitment)
    requires pp.Valid() && |z| == pp.m
    ensures c == CommitSpec(pp.rows, z)
  {
    c := SZeros(pp.kappa);
    if pp.m == 0 {
      return;
    }
    for i := 0 to pp.kappa
      invariant |c| == pp.kappa
      invariant forall k :: 0 <= k < i ==> c[k] == InnerProduct(pp.rows[k], z, 0, pp.m)
    {
      var acc := PrecompFold(pp.rows[i], z, 0, pp.m, schedule);
      c := c[i := acc];
    }
  }

  const PRECOMP_THRESHOLD: nat := 256

  function Column(z: Vec, j: nat): (c: Rq)
    requires |z| % D == 0 && j < |z| / D
    ensures forall t :: 0 <= t < D ==> c[t] == z[j * D + t]
  {
    z[j * D..(j + 1) * D]
  }

  /** Columns of a flat column-major witness. */
  function ColumnsOfFlat(z: Vec): (c: seq<Rq>)
    requires |z| % D == 0
    ensures |c| == |z| / D
    ensures forall j, t :: 0 <= j < |c| && 0 <= t < D ==> c[j][t] == z[j * D + t]
  {
    seq(|z| / D, j requires 0 <= j < |z| / D => Column(z, j))
  }

  /** `try_commit`: size check, then either loop; both give the same commitment. */
  method TryCommit(pp: PP, z: Vec, schedule: Schedule) returns (r: Result<Commitment>)
    requires pp.Valid()
    ensures r.Ok? <==> |z| == D * pp.m
    ensures r.Ok? ==> r.value == CommitSpec(pp.rows, ColumnsOfFlat(z))
  {
    if |z| != pp.d * pp.m {
      return Err(SizeMismatch(pp.d * pp.m, |z|));
    }
    assert |z| == D * pp.m && |z| / D == pp.m && |z| % D == 0;
    var cols := ColumnsOfFlat(z);
    if pp.m >= PRECOMP_THRESHOLD {
      var c := CommitPrecompCt(pp, cols, schedule);
      r := Ok(c);
    } else {
      var c := CommitMaskedCt(pp, cols);
      r := Ok(c);
    }
  }

  // ----- S-action -----

  lemma OneMoreTerm(s: Rq, a: Rq, rho: Rq, t: nat, col: Rq)
    requires t < D && col == ShiftN(t, rho)
    ensures Plus(Plus(s, Act(a[..t], rho)), Scale(a[t], col)) == Plus(s, Act(a[..t + 1], rho))
  {
    assert a[..t + 1] == a[..t] + [a[t]];
    ActAppend(a[..t], [a[t]], rho);
    ActSingle(a[t], col);
    PlusAssoc(s, Act(a[..t], rho), Scale(a[t], col));
  }

  /** The loop over the components for one column of rot(rho). */
  method AddColumn(acc: array<Rq>, col: Rq, c: Commitment, t: nat)
    requires acc.Length == |c| && t < D
    modifies acc
    ensures forall i :: 0 <= i < |c| ==> acc[i] == Plus(old(acc[i]), Scale(c[i][t], col))
  {
    for i := 0 to |c|
      invariant forall k :: 0 <= k < |c| ==> acc[k] == if k < i then Plus(old(acc[k]), Scale(c[k][t], col)) else old(acc[k])
    {
      acc[i] := AccMulAdd(acc[i], col, c[i][t]);
    }
  }

  /** `s_mul_add_from_rot_col`: all columns advance together over the rotation columns of rho. */
  method SMulAdd(acc: array<Rq>, rho: Rq, c: Commitment)
    requires acc.Length == |c|
    modifies acc
    ensures acc[..] == SPlus(old(acc[..]), SScale(rho, c))
  {
    var rot := new Fq[D](i requires 0 <= i < D => rho[i]);
    var nxt := new Fq[D](i => 0);
    assert rot[..] == rho;
    ghost var start := acc[..];
    forall i | 0 <= i < |c|
      ensures c[i][..0] == [] && Plus(start[i], Zero) == start[i]
    {
      PlusZeros(start[i]);
    }
    for t := 0 to D
      invariant fresh(rot) && fresh(nxt) && rot != nxt && rot.Length == nxt.Length == D
      invariant rot[..] == ShiftN(t, rho)
      invariant forall i :: 0 <= i < |c| ==> acc[i] == Plus(start[i], Act(c[i][..t], rho))
    {
      AddColumn(acc, rot[..], c, t);
      forall i | 0 <= i < |c|
        ensures acc[i] == Plus(start[i], Act(c[i][..t + 1], rho))
      {
        OneMoreTerm(start[i], c[i], rho, t, ShiftN(t, rho));
      }
      RotStep(rot, nxt);
      rot, nxt := nxt, rot;
      ShiftNLast(t, rho);
    }
    forall i | 0 <= i < |c|
      ensures acc[i] == Plus(start[i], Times(rho, c[i]))
    {
      assert c[i][..D] == c[i];
      TimesComm(rho, c[i]);
    }
  }

  /** `s_mul`. */
  method SMul(rho: Rq, c: Commitment) returns (r: Commitment)
    ensures r == SScale(rho, c)
  {
    var out := new Rq[|c|](i => Zero);
    SMulAdd(out, rho, c);
    forall i | 0 <= i < |c|
      ensures Plus(Zero, Times(rho, c[i])) == Times(rho, c[i])
    {
      PlusZeros(Times(rho, c[i]));
    }
    r := out[..];
  }

  /** `s_lincomb`. */
  method SLincomb(rhos: seq<Rq>, cs: seq<Commitment>) returns (r: Result<Commitment>)
    requires cs != [] ==> SameLength(cs, |cs[0]|)
    ensures r.Ok? <==> |rhos| == |cs| && rhos != []
    ensures r.Ok? ==> r.value == LinComb(rhos, cs, |cs[0]|, |cs|)
    ensures rhos == [] ==> r == Err(EmptyInput)
    ensures rhos != [] && |rhos| != |cs| ==> r == Err(SizeMismatch(|rhos|, |cs|))
  {
    if rhos == [] {
      return Err(EmptyInput);
    }
    if |rhos| != |cs| {
      return Err(SizeMismatch(|rhos|, |cs|));
    }
    var acc := new Rq[|cs[0]|](i => Zero);
    assert acc[..] == SZeros(|cs[0]|);
    for k := 0 to |cs|
      invariant acc[..] == LinComb(rhos, cs, |cs[0]|, k)
    {
      SMulAdd(acc, rhos[k], cs[k]);
    }
    r := Ok(acc[..]);
  }

  // ----- homomorphism theorems -----

  lemma {:induction false} InnerProductScale(row: seq<Rq>, rho: Rq, z: seq<Rq>, n: nat)
    requires n <= |row| && n <= |z|
    ensures InnerProduct(row, SScale(rho, z), 0, n) == Times(rho, InnerProduct(row, z, 0, n))
  {
    if n == 0 {
      TimesOne(rho);
    } else {
      InnerProductScale(row, rho, z, n - 1);
      var a, b := row[n - 1], z[n - 1];
      TimesAssoc(a, rho, b);
      TimesComm(a, rho);
      TimesAssoc(rho, a, b);
      TimesPlus(rho, InnerProduct(row, z, 0, n - 1), Times(a, b));
    }
  }

  lemma {:induction false} InnerProductPlus(row: seq<Rq>, y: seq<Rq>, z: seq<Rq>, n: nat)
    requires n <= |row| && |y| == |z| && n <= |z|
    ensures InnerProduct(row, SPlus(y, z), 0, n) == Plus(InnerProduct(row, y, 0, n), InnerProduct(row, z, 0, n))
  {
    if n == 0 {
      PlusZeros(Zero);
    } else {
      InnerProductPlus(row, y, z, n - 1);
      var a := row[n - 1];
      TimesPlus(a, y[n - 1], z[n - 1]);
      PlusSwap(InnerProduct(row, y, 0, n - 1), InnerProduct(row, z, 0, n - 1), Times(a, y[n - 1]), Times(a, z[n - 1]));
    }
  }

  lemma {:induction false} InnerProductZeros(row: seq<Rq>, m: nat, n: nat)
    requires n <= |row| && n <= m
    ensures InnerProduct(row, SZeros(m), 0, n) == Zero
  {
    if n != 0 {
      InnerProductZeros(row, m, n - 1);
      TimesOne(row[n - 1]);
      PlusZeros(Zero);
    }
  }

  /** S-homomorphism: rho * commit(Z) == commit(rho * Z). */
  lemma CommitIsHomomorphic(rows: seq<seq<Rq>>, rho: Rq, z: seq<Rq>)
    requires SameLength(rows, |z|)
    ensures CommitSpec(rows, SScale(rho, z)) == SScale(rho, CommitSpec(rows, z))
  {
    forall i | 0 <= i < |rows|
      ensures InnerProduct(rows[i], SScale(rho, z), 0, |z|) == Times(rho, InnerProduct(rows[i], z, 0, |z|))
    {
      InnerProductScale(rows[i], rho, z, |z|);
    }
  }

  lemma CommitIsAdditive(rows: seq<seq<Rq>>, y: seq<Rq>, z: seq<Rq>)
    requires |y| == |z| && SameLength(rows, |z|)
    ensures CommitSpec(rows, SPlus(y, z)) == SPlus(CommitSpec(rows, y), CommitSpec(rows, z))
  {
    forall i | 0 <= i < |rows|
      ensures InnerProduct(rows[i], SPlus(y, z), 0, |z|)
           == Plus(InnerProduct(rows[i], y, 0, |z|), InnerProduct(rows[i], z, 0, |z|))
    {
      InnerProductPlus(rows[i], y, z, |z|);
    }
  }

  function Commitments(rows: seq<seq<Rq>>, zs: seq<seq<Rq>>, m: nat): (cs: seq<Commitment>)
    requires SameLength(rows, m) && SameLength(zs, m)
    ensures |cs| == |zs| && SameLength(cs, |rows|)
  {
    seq(|zs|, i requires 0 <= i < |zs| => CommitSpec(rows, zs[i]))
  }

  /** The combination of the commitments is the commitment of the combined witness. */
  lemma {:induction false} LinCombOfCommitments(rows: seq<seq<Rq>>, rhos: seq<Rq>, zs: seq<seq<Rq>>, m: nat, k: nat)
    requires SameLength(rows, m) && SameLength(zs, m) && k <= |rhos| && k <= |zs|
    ensures LinComb(rhos, Commitments(rows, zs, m), |rows|, k) == CommitSpec(rows, LinComb(rhos, zs, m, k))
  {
    if k == 0 {
      forall i | 0 <= i < |rows|
        ensures InnerProduct(rows[i], SZeros(m), 0, m) == Zero
      {
        InnerProductZeros(rows[i], m, m);
      }
    } else {
      LinCombOfCommitments(rows, rhos, zs, m, k - 1);
      CommitIsHomomorphic(rows, rhos[k - 1], zs[k - 1]);
      CommitIsAdditive(rows, LinComb(rhos, zs, m, k - 1), SScale(rhos[k - 1], zs[k - 1]));
    }
  }
}
