/** Seeded public parameters and the commitment that never materialises them. */
module Streaming {
  import opened Arithmetic
  import opened Field
  import opened Vectors
  import opened Ring
  import opened Polynomials
  import opened Rotations
  import opened Ajtai

  /** A 32-byte seed, read as a number. */
  type Seed = int

  /**
   The generator as an arbitrary function of its seed: block n of its byte stream, and the n-th
   uniform ring element drawn from it by rejection sampling.
   */
  datatype Prg = Prg(block: (Seed, nat) -> Seed, element: (Seed, nat) -> Rq)

  class Rng {
    const prg: Prg
    const seed: Seed
    var pos: nat

    constructor (prg: Prg, seed: Seed)
      ensures this.prg == prg && this.seed == seed && pos == 0
    {
      this.prg := prg;
      this.seed := seed;
      pos := 0;
    }

    method FillBytes() returns (s: Seed)
      modifies this`pos
      ensures s == prg.block(seed, old(pos)) && pos == old(pos) + 1
    {
      s := prg.block(seed, pos);
      pos := pos + 1;
    }

    method SampleRq() returns (e: Rq)
      modifies this`pos
      ensures e == prg.element(seed, old(pos)) && pos == old(pos) + 1
    {
      e := prg.element(seed, pos);
      pos := pos + 1;
    }
  }

  // ----- chunking, independent of the thread count -----

  function ChunkSize(m: nat): (n: nat)
    ensures 1024 <= n <= 32768 && (m <= 1024 ==> n == 1024) && (1024 <= m <= 32768 ==> n == m)
    ensures m >= 32768 ==> n == 32768
  {
    var n := if m < 32768 then m else 32768;
    if n < 1024 then 1024 else n
  }

  function NumChunks(m: nat): nat {
    (m + ChunkSize(m) - 1) / ChunkSize(m)
  }

  function ChunkStart(m: nat, c: nat): (s: nat)
    ensures s <= m
  {
    if c * ChunkSize(m) < m then c * ChunkSize(m) else m
  }

  lemma DivisionIsUnique(j: nat, c: nat, n: nat, r: nat)
    requires n > 0 && j == c * n + r && r < n
    ensures j / n == c && j % n == r
  {
    QuotientIs(j, n, c);
  }

  lemma ChunkBounds(m: nat, c: nat)
    ensures ChunkStart(m, 0) == 0
    ensures ChunkStart(m, c) <= ChunkStart(m, c + 1)
    ensures ChunkStart(m, NumChunks(m)) == m
    ensures forall j :: ChunkStart(m, c) <= j < ChunkStart(m, c + 1) ==>
      j / ChunkSize(m) == c && j % ChunkSize(m) == j - ChunkStart(m, c)
  {
    var n := ChunkSize(m);
    assert (c + 1) * n == c * n + n;
    forall j | ChunkStart(m, c) <= j < ChunkStart(m, c + 1)
      ensures j / n == c && j % n == j - c * n
    {
      DivisionIsUnique(j, c, n, j - c * n);
    }
    var k := NumChunks(m);
    assert (m + n - 1) == k * n + (m + n - 1) % n;
  }

  /** Entry (i, j) of the parameters derived from a seed. */
  function SetupEntry(prg: Prg, seed: Seed, m: nat, i: nat, j: nat): Rq {
    prg.element(prg.block(prg.block(seed, i), j / ChunkSize(m)), j % ChunkSize(m))
  }

  /** Where the entries come from: one chunk up to 32768 columns, chunks of 32768 beyond. */
  lemma SetupEntryFrom(prg: Prg, seed: Seed, m: nat, i: nat, chunk: nat, offset: nat)
    requires offset < 32768 && chunk * 32768 + offset < m
    ensures SetupEntry(prg, seed, m, i, chunk * 32768 + offset)
         == prg.element(prg.block(prg.block(seed, i), chunk), offset)
  {
    if m >= 32768 {
      DivisionIsUnique(chunk * 32768 + offset, chunk, 32768, offset);
    } else {
      assert chunk == 0;
      DivisionIsUnique(offset, 0, ChunkSize(m), offset);
    }
  }

  function SetupRow(prg: Prg, seed: Seed, m: nat, i: nat): (r: seq<Rq>)
    ensures |r| == m
  {
    seq(m, j requires 0 <= j => SetupEntry(prg, seed, m, i, j))
  }

  function SetupRows(prg: Prg, seed: Seed, kappa: nat, m: nat): (rows: seq<seq<Rq>>)
    ensures |rows| == kappa && SameLength(rows, m)
  {
    seq(kappa, i requires 0 <= i => SetupRow(prg, seed, m, i))
  }

  // ----- materialised setup -----

  method RowSeeds(prg: Prg, seed: Seed, kappa: nat) returns (seeds: seq<Seed>)
    ensures seeds == seq(kappa, i requires 0 <= i => prg.block(seed, i))
  {
    var rng := new Rng(prg, seed);
    seeds := [];
    for i := 0 to kappa
      invariant rng.prg == prg && rng.seed == seed && rng.pos == i
      invariant |seeds| == i && forall k :: 0 <= k < i ==> seeds[k] == prg.block(seed, k)
    {
      var s := rng.FillBytes();
      seeds := seeds + [s];
    }
  }

  /** `setup_par`. */
  method SetupPar(prg: Prg, seed: Seed, d: nat, kappa: nat, m: nat) returns (r: Result<PP>)
    ensures r.Ok? <==> d == D
    ensures r.Ok? ==> r.value == PP(d, kappa, m, SetupRows(prg, seed, kappa, m))
  {
    if d != D {
      return Err(InvalidDimensions);
    }
    if m == 0 {
      assert seq(kappa, i => []) == SetupRows(prg, seed, kappa, m);
      return Ok(PP(d, kappa, m, seq(kappa, i => [])));
    }
    var rowSeeds := RowSeeds(prg, seed, kappa);
    var rows: seq<seq<Rq>> := [];
    ChunkBounds(m, 0);
    for i := 0 to kappa
      invariant |rows| == i && forall k :: 0 <= k < i ==> rows[k] == SetupRow(prg, seed, m, k)
    {
      var chunkSeeds := RowSeeds(prg, rowSeeds[i], NumChunks(m));
      var row: seq<Rq> := [];
      for c := 0 to NumChunks(m)
        invariant |row| == ChunkStart(m, c)
        invariant forall j :: 0 <= j < |row| ==> row[j] == SetupEntry(prg, seed, m, i, j)
      {
        ChunkBounds(m, c);
        var chunk := FillChunk(prg, chunkSeeds[c], ChunkStart(m, c + 1) - ChunkStart(m, c));
        row := row + chunk;
      }
      assert row == SetupRow(prg, seed, m, i);
      rows := rows + [row];
    }
    r := Ok(PP(d, kappa, m, rows));
  }

  method FillChunk(prg: Prg, seed: Seed, n: nat) returns (chunk: seq<Rq>)
    ensures |chunk| == n && forall k :: 0 <= k < n ==> chunk[k] == prg.element(seed, k)
  {
    var rng := new Rng(prg, seed);
    chunk := [];
    for k := 0 to n
      invariant rng.prg == prg && rng.seed == seed && rng.pos == k
      invariant |chunk| == k && forall l :: 0 <= l < k ==> chunk[l] == prg.element(seed, l)
    {
      var e := rng.SampleRq();
      chunk := chunk + [e];
    }
  }

  // ----- streaming commitment -----

  /** A row-major D x m witness. */
  ghost predicate RowMajor(z: seq<Vec>, m: nat) {
    |z| == D && forall t :: 0 <= t < D ==> |z[t]| == m
  }

  function ColumnAt(z: seq<Vec>, m: nat, j: nat): Rq
    requires RowMajor(z, m) && j < m
  {
    seq(D, t requires 0 <= t < D => z[t][j])
  }

  function ColumnsOfRows(z: seq<Vec>, m: nat): (c: seq<Rq>)
    requires RowMajor(z, m)
    ensures |c| == m
  {
    seq(m, j requires 0 <= j < m => ColumnAt(z, m, j))
  }

  datatype Last = NoEntry | At(t: nat)

  ghost predicate IsLastNonzero(col: Rq, last: Last) {
    match last
    case NoEntry => forall t :: 0 <= t < D ==> col[t] == 0
    case At(t) => t < D && col[t] != 0 && forall s :: t < s < D ==> col[s] == 0
  }

  method LastNonzeroByColumn(z: seq<Vec>, m: nat) returns (last: seq<Last>)
    requires RowMajor(z, m)
    ensures |last| == m
    ensures forall j :: 0 <= j < m ==> IsLastNonzero(ColumnAt(z, m, j), last[j])
  {
    last := [];
    for j := 0 to m
      invariant |last| == j
      invariant forall k :: 0 <= k < j ==> IsLastNonzero(ColumnAt(z, m, k), last[k])
    {
      ghost var col := ColumnAt(z, m, j);
      var found := NoEntry;
      var t := D;
      while t > 0 && found.NoEntry?
        invariant 0 <= t <= D
        invariant found.NoEntry? ==> forall s :: t <= s < D ==> col[s] == 0
        invariant found.At? ==> IsLastNonzero(col, found)
      {
        t := t - 1;
        if z[t][j] != 0 {
          found := At(t);
        }
      }
      last := last + [found];
    }
  }

  /** One sparse column: zero entries are skipped and rotation stops at the last nonzero one. */
  method AccumulateSparseColumn(acc: Rq, key: Rq, z: seq<Vec>, m: nat, j: nat, last: Last) returns (r: Rq)
    requires RowMajor(z, m) && j < m && IsLastNonzero(ColumnAt(z, m, j), last)
    ensures r == Plus(acc, Times(key, ColumnAt(z, m, j)))
  {
    ghost var col := ColumnAt(z, m, j);
    r := acc;
    NothingAfter(acc, col, last, key);
    if last.NoEntry? {
      return;
    }
    hide Act, Plus, Scale, Shift, IsLastNonzero, RowMajor, ColumnAt, Times;
    ColumnEntries(z, m, j);
    var rot := new Fq[D](i requires 0 <= i < D => key[i]);
    var nxt := new Fq[D](i => 0);
    assert rot[..] == key && col[0..] == col;
    for t := 0 to last.t
      invariant fresh(rot) && fresh(nxt) && rot != nxt && rot.Length == nxt.Length == D
      invariant Plus(r, Act(col[t..], rot[..])) == Plus(acc, Act(col, key))
    {
      StepOverEntry(r, col, t, rot[..]);
      if z[t][j] != 0 {
        r := AccMulAdd(r, rot[..], z[t][j]);
      }
      RotStep(rot, nxt);
      rot, nxt := nxt, rot;
    }
    StepOverEntry(r, col, last.t, rot[..]);
    if z[last.t][j] != 0 {
      r := AccMulAdd(r, rot[..], z[last.t][j]);
    }
    NothingAfter(r, col, last, Shift(rot[..]));
  }

  lemma ColumnEntries(z: seq<Vec>, m: nat, j: nat)
    requires RowMajor(z, m) && j < m
    ensures |z| == D && forall t :: 0 <= t < D ==> |z[t]| == m && z[t][j] == ColumnAt(z, m, j)[t]
  {}

  /** Past the last nonzero entry a column contributes nothing. */
  lemma NothingAfter(r: Rq, col: Rq, last: Last, rot: Rq)
    requires IsLastNonzero(col, last)
    ensures last.At? ==> last.t < D
    ensures var t := if last.At? then last.t + 1 else 0;
            Plus(r, Act(col[t..], rot)) == r
    ensures last.NoEntry? ==> Plus(r, Times(rot, col)) == r
    ensures Times(rot, col) == Act(col, rot)
  {
    var t := if last.At? then last.t + 1 else 0;
    assert col[t..] == Zeros(D - t);
    assert last.NoEntry? ==> col[t..] == col;
    ActLeftZeros(D - t, rot);
    PlusZeros(r);
    TimesComm(rot, col);
  }

  /** Consuming entry t of a column, with the add skipped when the entry is zero. */
  lemma StepOverEntry(r: Rq, col: Rq, t: nat, rot: Rq)
    requires t < D
    ensures var r' := if col[t] == 0 then r else Plus(r, Scale(col[t], rot));
            Plus(r', Act(col[t + 1..], Shift(rot))) == Plus(r, Act(col[t..], rot))
  {
    assert col[t..][1..] == col[t + 1..];
    PlusAssoc(r, Scale(col[t], rot), Act(col[t + 1..], Shift(rot)));
    if col[t] == 0 {
      ScaleOne(rot);
      PlusZeros(r);
    }
  }

  /** The columns of chunks lo..hi for parameter row i, for any split of the chunk range. */
  method SeededFold(prg: Prg, seed: Seed, m: nat, i: nat, chunkSeeds: seq<Seed>, z: seq<Vec>, last: seq<Last>,
                    lo: nat, hi: nat, schedule: Schedule) returns (acc: Rq)
    requires RowMajor(z, m) && lo <= hi <= NumChunks(m) == |chunkSeeds|
    requires forall c :: 0 <= c < |chunkSeeds| ==> chunkSeeds[c] == prg.block(prg.block(seed, i), c)
    requires |last| == m && forall j :: 0 <= j < m ==> IsLastNonzero(ColumnAt(z, m, j), last[j])
    ensures ChunkStart(m, lo) <= ChunkStart(m, hi)
    ensures acc == InnerProduct(SetupRow(prg, seed, m, i), ColumnsOfRows(z, m), ChunkStart(m, lo), ChunkStart(m, hi))
    decreases schedule
  {
    hide Times, Act, Plus, ChunkStart, RowMajor, IsLastNonzero;
    match schedule
    case Fork(left, right) =>
      var mid := (lo + hi) / 2;
      var a := SeededFold(prg, seed, m, i, chunkSeeds, z, last, lo, mid, left);
      var b := SeededFold(prg, seed, m, i, chunkSeeds, z, last, mid, hi, right);
      InnerProductSplit(SetupRow(prg, seed, m, i), ColumnsOfRows(z, m),
                        ChunkStart(m, lo), ChunkStart(m, mid), ChunkStart(m, hi));
      acc := Plus(a, b);
    case Sequential =>
      acc := Zero;
      ghost var row, cols := SetupRow(prg, seed, m, i), ColumnsOfRows(z, m);
      for c := lo to hi
        invariant ChunkStart(m, lo) <= ChunkStart(m, c)
        invariant acc == InnerProduct(row, cols, ChunkStart(m, lo), ChunkStart(m, c))
      {
        var start, end := ChunkStart(m, c), ChunkStart(m, c + 1);
        ChunkBounds(m, c);
        var rng := new Rng(prg, chunkSeeds[c]);
        for j := start to end
          invariant rng.prg == prg && rng.seed == chunkSeeds[c] && rng.pos == j - start
          invariant acc == InnerProduct(row, cols, ChunkStart(m, lo), j)
        {
          var key := rng.SampleRq();
          assert key == row[j];
          acc := AccumulateSparseColumn(acc, key, z, m, j, last[j]);
        }
      }
  }

  /** `commit_row_major_seeded`: the same commitment as setting up the parameters and committing densely. */
  method CommitRowMajorSeeded(prg: Prg, seed: Seed, d: nat, kappa: nat, m: nat, z: seq<Vec>, schedule: Schedule)
    returns (c: Commitment)
    requires d == D && RowMajor(z, m)
    ensures c == CommitSpec(SetupRows(prg, seed, kappa, m), ColumnsOfRows(z, m))
  {
    c := SZeros(kappa);
    if m == 0 {
      return;
    }
    var last := LastNonzeroByColumn(z, m);
    var rowSeeds := RowSeeds(prg, seed, kappa);
    ChunkBounds(m, 0);
    for i := 0 to kappa
      invariant |c| == kappa
      invariant forall k :: 0 <= k < i ==>
        c[k] == InnerProduct(SetupRow(prg, seed, m, k), ColumnsOfRows(z, m), 0, m)
    {
      var chunkSeeds := RowSeeds(prg, rowSeeds[i], NumChunks(m));
      var acc := SeededFold(prg, seed, m, i, chunkSeeds, z, last, 0, NumChunks(m), schedule);
      c := c[i := acc];
    }
  }

  /** `commit_row_major_seeded_many`: every key is drawn once and used for all matrices, under any schedule. */
  method CommitRowMajorSeededMany(prg: Prg, seed: Seed, d: nat, kappa: nat, m: nat, zs: seq<seq<Vec>>,
                                  schedule: Schedule)
    returns (out: seq<Commitment>)
    requires d == D && forall k :: 0 <= k < |zs| ==> RowMajor(zs[k], m)
    ensures |out| == |zs|
    ensures forall k :: 0 <= k < |zs| ==>
      out[k] == CommitSpec(SetupRows(prg, seed, kappa, m), ColumnsOfRows(zs[k], m))
  {
    var n := |zs|;
    out := seq(n, k => SZeros(kappa));
    if m == 0 {
      return;
    }
    var lastAll: seq<seq<Last>> := [];
    for k := 0 to n
      invariant |lastAll| == k
      invariant forall l :: 0 <= l < k ==>
        |lastAll[l]| == m && forall j :: 0 <= j < m ==> IsLastNonzero(ColumnAt(zs[l], m, j), lastAll[l][j])
    {
      var last := LastNonzeroByColumn(zs[k], m);
      lastAll := lastAll + [last];
    }
    var rowSeeds := RowSeeds(prg, seed, kappa);
    ChunkBounds(m, 0);
    for i := 0 to kappa
      invariant |out| == n && SameLength(out, kappa)
      invariant forall k, l :: 0 <= k < n && 0 <= l < i ==>
        out[k][l] == InnerProduct(SetupRow(prg, seed, m, l), ColumnsOfRows(zs[k], m), 0, m)
    {
      var chunkSeeds := RowSeeds(prg, rowSeeds[i], NumChunks(m));
      var local := SeededManyFold(prg, seed, m, i, chunkSeeds, zs, lastAll, 0, NumChunks(m), schedule);
      for k := 0 to n
        invariant |out| == n && SameLength(out, kappa)
        invariant forall k', l :: 0 <= k' < n && 0 <= l < (if k' < k then i + 1 else i) ==>
          out[k'][l] == InnerProduct(SetupRow(prg, seed, m, l), ColumnsOfRows(zs[k'], m), 0, m)
      {
        out := out[k := out[k][i := local[k]]];
      }
    }
    forall k | 0 <= k < n
      ensures out[k] == CommitSpec(SetupRows(prg, seed, kappa, m), ColumnsOfRows(zs[k], m))
    {}
  }

  /** Chunks lo..hi for all matrices at once, for any split of the chunk range. */
  method SeededManyFold(prg: Prg, seed: Seed, m: nat, i: nat, chunkSeeds: seq<Seed>, zs: seq<seq<Vec>>,
                        lastAll: seq<seq<Last>>, lo: nat, hi: nat, schedule: Schedule) returns (local: seq<Rq>)
    requires (forall k :: 0 <= k < |zs| ==> RowMajor(zs[k], m)) && lo <= hi <= NumChunks(m) == |chunkSeeds|
    requires forall c :: 0 <= c < |chunkSeeds| ==> chunkSeeds[c] == prg.block(prg.block(seed, i), c)
    requires |lastAll| == |zs| && forall k :: 0 <= k < |zs| ==>
      |lastAll[k]| == m && forall j :: 0 <= j < m ==> IsLastNonzero(ColumnAt(zs[k], m, j), lastAll[k][j])
    ensures |local| == |zs| && ChunkStart(m, lo) <= ChunkStart(m, hi)
    ensures forall k :: 0 <= k < |zs| ==>
      local[k] == InnerProduct(SetupRow(prg, seed, m, i), ColumnsOfRows(zs[k], m), ChunkStart(m, lo), ChunkStart(m, hi))
    decreases schedule
  {
    hide Times, Act, Plus, ChunkStart, RowMajor, IsLastNonzero;
    ghost var row := SetupRow(prg, seed, m, i);
    match schedule
    case Fork(left, right) =>
      var mid := (lo + hi) / 2;
      var a := SeededManyFold(prg, seed, m, i, chunkSeeds, zs, lastAll, lo, mid, left);
      var b := SeededManyFold(prg, seed, m, i, chunkSeeds, zs, lastAll, mid, hi, right);
      local := a;
      for k := 0 to |zs|
        invariant |local| == |zs|
        invariant forall l :: k <= l < |zs| ==> local[l] == a[l]
        invariant forall l :: 0 <= l < k ==>
          local[l] == InnerProduct(row, ColumnsOfRows(zs[l], m), ChunkStart(m, lo), ChunkStart(m, hi))
      {
        InnerProductSplit(row, ColumnsOfRows(zs[k], m), ChunkStart(m, lo), ChunkStart(m, mid), ChunkStart(m, hi));
        local := local[k := Plus(local[k], b[k])];
      }
    case Sequential =>
      local := SZeros(|zs|);
      for c := lo to hi
        invariant |local| == |zs| && ChunkStart(m, lo) <= ChunkStart(m, c)
        invariant forall k :: 0 <= k < |zs| ==>
          local[k] == InnerProduct(row, ColumnsOfRows(zs[k], m), ChunkStart(m, lo), ChunkStart(m, c))
      {
        local := SeededManyChunk(prg, seed, m, i, lo, c, chunkSeeds[c], local, zs, lastAll);
      }
  }

  /** The keys of one chunk, drawn once for all matrices. */
  method SeededManyChunk(prg: Prg, ghost seed: Seed, m: nat, ghost i: nat, ghost lo: nat, c: nat, chunkSeed: Seed,
                         before: seq<Rq>, zs: seq<seq<Vec>>, lastAll: seq<seq<Last>>) returns (local: seq<Rq>)
    requires forall k :: 0 <= k < |zs| ==> RowMajor(zs[k], m)
    requires c < NumChunks(m) && chunkSeed == prg.block(prg.block(seed, i), c)
    requires |lastAll| == |zs| && forall k :: 0 <= k < |zs| ==>
      |lastAll[k]| == m && forall j :: 0 <= j < m ==> IsLastNonzero(ColumnAt(zs[k], m, j), lastAll[k][j])
    requires |before| == |zs| && ChunkStart(m, lo) <= ChunkStart(m, c)
    requires forall k :: 0 <= k < |zs| ==>
      before[k] == InnerProduct(SetupRow(prg, seed, m, i), ColumnsOfRows(zs[k], m), ChunkStart(m, lo), ChunkStart(m, c))
    ensures |local| == |zs| && ChunkStart(m, lo) <= ChunkStart(m, c + 1)
    ensures forall k :: 0 <= k < |zs| ==>
      local[k] == InnerProduct(SetupRow(prg, seed, m, i), ColumnsOfRows(zs[k], m), ChunkStart(m, lo), ChunkStart(m, c + 1))
  {
    hide Times, Act, Plus, ChunkStart, RowMajor, IsLastNonzero;
    ghost var row := SetupRow(prg, seed, m, i);
    local := before;
    var start, end := ChunkStart(m, c), ChunkStart(m, c + 1);
    ChunkBounds(m, c);
    var rng := new Rng(prg, chunkSeed);
    for j := start to end
      invariant rng.prg == prg && rng.seed == chunkSeed && rng.pos == j - start
      invariant |local| == |zs|
      invariant forall k :: 0 <= k < |zs| ==> local[k] == InnerProduct(row, ColumnsOfRows(zs[k], m), ChunkStart(m, lo), j)
    {
      var key := rng.SampleRq();
      assert key == row[j];
      local := AccumulateAll(local, key, zs, m, j, lastAll);
    }
  }

  method AccumulateAll(local: seq<Rq>, key: Rq, zs: seq<seq<Vec>>, m: nat, j: nat, lastAll: seq<seq<Last>>)
    returns (r: seq<Rq>)
    requires |local| == |zs| == |lastAll| && j < m
    requires forall k :: 0 <= k < |zs| ==> RowMajor(zs[k], m)
    requires forall k :: 0 <= k < |zs| ==> |lastAll[k]| == m && IsLastNonzero(ColumnAt(zs[k], m, j), lastAll[k][j])
    ensures |r| == |zs|
    ensures forall k :: 0 <= k < |zs| ==> r[k] == Plus(local[k], Times(key, ColumnAt(zs[k], m, j)))
  {
    hide Times, ColumnAt;
    r := local;
    for k := 0 to |zs|
      invariant |r| == |zs|
      invariant forall l :: k <= l < |zs| ==> r[l] == local[l]
      invariant forall l :: 0 <= l < k ==> r[l] == Plus(local[l], Times(key, ColumnAt(zs[l], m, j)))
    {
      var acc := AccumulateSparseColumn(r[k], key, zs[k], m, j, lastAll[k][j]);
      r := r[k := acc];
    }
  }

  // ----- the two dense loops on rows -----

  /** The masked loop on column j, reading its entries across the rows. */
  method AccumulateAcrossRows(acc: array<Fq>, a: Rq, z: seq<Vec>, m: nat, j: nat)
    requires acc.Length == D && RowMajor(z, m) && j < m
    modifies acc
    ensures acc[..] == Plus(old(acc[..]), Times(a, ColumnAt(z, m, j)))
  {
    hide Act, Plus, Scale, Shift;
    ghost var zj := ColumnAt(z, m, j);
    var col := new Fq[D](i requires 0 <= i < D => a[i]);
    var nxt := new Fq[D](i => 0);
    assert col[..] == a && zj[0..] == zj;
    TimesComm(a, zj);
    for t := 0 to D
      invariant fresh(col) && fresh(nxt) && col != nxt && col.Length == nxt.Length == D
      invariant Plus(acc[..], Act(zj[t..], col[..])) == Plus(old(acc[..]), Act(zj, a))
    {
      var mask := z[t][j];
      ghost var before, rot := acc[..], col[..];
      AddMasked(acc, col, mask);
      MaskedStep(before, zj, t, rot);
      RotStep(col, nxt);
      col, nxt := nxt, col;
    }
    assert zj[D..] == [];
    PlusZeros(acc[..]);
    assert Act([], col[..]) == Zero by { ActLeftZeros(0, col[..]); assert Zeros(0) == []; }
  }

  method AddMasked(acc: array<Fq>, col: array<Fq>, mask: Fq)
    requires acc.Length == col.Length == D && acc != col
    modifies acc
    ensures acc[..] == Plus(old(acc[..]), Scale(mask, col[..]))
  {
    hide Mul, Add;
    for r := 0 to D
      invariant forall i :: 0 <= i < D ==> acc[i] == if i < r then Add(old(acc[i]), Mul(mask, col[i])) else old(acc[i])
    {
      MulComm(col[r], mask);
      acc[r] := Add(acc[r], Mul(col[r], mask));
    }
  }

  lemma MaskedStep(r: Rq, col: Rq, t: nat, rot: Rq)
    requires t < D
    ensures Plus(Plus(r, Scale(col[t], rot)), Act(col[t + 1..], Shift(rot))) == Plus(r, Act(col[t..], rot))
  {
    assert col[t..][1..] == col[t + 1..];
    PlusAssoc(r, Scale(col[t], rot), Act(col[t + 1..], Shift(rot)));
  }

  /** `commit_masked_ct_row_major`. */
  method CommitMaskedCtRowMajor(pp: PP, z: seq<Vec>) returns (c: Commitment)
    requires pp.Valid() && RowMajor(z, pp.m)
    ensures c == CommitSpec(pp.rows, ColumnsOfRows(z, pp.m))
  {
    ghost var cols := ColumnsOfRows(z, pp.m);
    c := [];
    for i := 0 to pp.kappa
      invariant |c| == i
      invariant forall k :: 0 <= k < i ==> c[k] == InnerProduct(pp.rows[k], cols, 0, pp.m)
    {
      var acc := new Fq[D](k => 0);
      assert acc[..] == Zero;
      for j := 0 to pp.m
        invariant acc[..] == InnerProduct(pp.rows[i], cols, 0, j)
      {
        AccumulateAcrossRows(acc, pp.rows[i][j], z, pp.m, j);
      }
      c := c + [acc[..]];
    }
  }

  /** The precomputed fold on rows, for any split of the range. */
  method PrecompFoldRowMajor(row: seq<Rq>, z: seq<Vec>, m: nat, lo: nat, hi: nat, schedule: Schedule) returns (acc: Rq)
    requires RowMajor(z, m) && lo <= hi <= m == |row|
    ensures acc == InnerProduct(row, ColumnsOfRows(z, m), lo, hi)
    decreases schedule
  {
    ghost var cols := ColumnsOfRows(z, m);
    match schedule
    case Fork(left, right) =>
      var mid := (lo + hi) / 2;
      var a := PrecompFoldRowMajor(row, z, m, lo, mid, left);
      var b := PrecompFoldRowMajor(row, z, m, mid, hi, right);
      InnerProductSplit(row, cols, lo, mid, hi);
      acc := Plus(a, b);
    case Sequential =>
      acc := Zero;
      for j := lo to hi
        invariant acc == InnerProduct(row, cols, lo, j)
      {
        var rot := PrecomputeRotColumns(row[j]);
        acc := AddAcrossRows(acc, row[j], rot, z, m, j);
      }
  }

  method AddAcrossRows(start: Rq, ghost a: Rq, rot: Columns, z: seq<Vec>, m: nat, j: nat) returns (acc: Rq)
    requires RowMajor(z, m) && j < m && rot == Rot(a)
    ensures acc == Plus(start, Times(a, ColumnAt(z, m, j)))
  {
    hide Act, Plus, Scale, Shift;
    ghost var zj := ColumnAt(z, m, j);
    acc := start;
    assert zj[0..] == zj && rot[0] == a;
    TimesComm(a, zj);
    for t := 0 to D
      invariant Plus(acc, Act(zj[t..], ShiftN(t, a))) == Plus(start, Act(zj, a))
    {
      MaskedStep(acc, zj, t, ShiftN(t, a));
      ShiftNLast(t, a);
      acc := Plus(acc, Scale(z[t][j], rot[t]));
    }
    assert zj[D..] == Zeros(0);
    ActLeftZeros(0, ShiftN(D, a));
    PlusZeros(acc);
  }

  /** `commit_precomp_ct_row_major`. */
  method CommitPrecompCtRowMajor(pp: PP, z: seq<Vec>, schedule: Schedule) returns (c: Commitment)
    requires pp.Valid() && RowMajor(z, pp.m)
    ensures c == CommitSpec(pp.rows, ColumnsOfRows(z, pp.m))
  {
    ghost var cols := ColumnsOfRows(z, pp.m);
    c := SZeros(pp.kappa);
    if pp.m == 0 {
      return;
    }
    for i := 0 to pp.kappa
      invariant |c| == pp.kappa
      invariant forall k :: 0 <= k < i ==> c[k] == InnerProduct(pp.rows[k], cols, 0, pp.m)
    {
      var acc := PrecompFoldRowMajor(pp.rows[i], z, pp.m, 0, pp.m, schedule);
      c := c[i := acc];
    }
  }

  /** `try_commit_row_major`: the dense commitment of a row-major witness. */
  method TryCommitRowMajor(pp: PP, rows: nat, cols: nat, z: seq<Vec>, schedule: Schedule)
    returns (r: Result<Commitment>)
    requires pp.Valid() && |z| == rows && forall t :: 0 <= t < rows ==> |z[t]| == cols
    ensures r.Ok? <==> rows == pp.d && cols == pp.m
    ensures r.Ok? ==> RowMajor(z, pp.m) && r.value == CommitSpec(pp.rows, ColumnsOfRows(z, pp.m))
  {
    if rows != pp.d || cols != pp.m {
      return Err(InvalidDimensions);
    }
    var c: Commitment;
    if pp.m >= PRECOMP_THRESHOLD {
      c := CommitPrecompCtRowMajor(pp, z, schedule);
    } else {
      c := CommitMaskedCtRowMajor(pp, z);
    }
    r := Ok(c);
  }
}
