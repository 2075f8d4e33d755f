/** Compressed sparse column matrices: construction from triplets and products. */
module Csc {
  import opened Field
  import opened ExtField

  datatype Triplet = Triplet(row: nat, col: nat, val: Fq)

  /** The matrix entry that a list of triplets stands for: the sum of its coefficients. */
  function SumAt(t: seq<Triplet>, r: nat, c: nat): Fq {
    if t == [] then 0
    else
      var last := t[|t| - 1];
      var rest := SumAt(t[..|t| - 1], r, c);
      if last.row == r && last.col == c then Add(rest, last.val) else rest
  }

  ghost predicate InBounds(t: seq<Triplet>, nrows: nat, ncols: nat) {
    forall i :: 0 <= i < |t| ==> t[i].row < nrows && t[i].col < ncols
  }

  predicate Before(a: Triplet, b: Triplet) { a.col < b.col || (a.col == b.col && a.row < b.row) }

  predicate NotAfter(a: Triplet, b: Triplet) { a.col < b.col || (a.col == b.col && a.row <= b.row) }

  ghost predicate Sorted(t: seq<Triplet>) {
    forall i, j :: 0 <= i < j < |t| ==> NotAfter(t[i], t[j])
  }

  ghost predicate StrictlySorted(t: seq<Triplet>) {
    forall i, j :: 0 <= i < j < |t| ==> Before(t[i], t[j])
  }

  ghost predicate NoZeros(t: seq<Triplet>) {
    forall i :: 0 <= i < |t| ==> t[i].val != 0
  }

  lemma {:induction false} SumAtAppend(s: seq<Triplet>, t: seq<Triplet>, r: nat, c: nat)
    ensures SumAt(s + t, r, c) == Add(SumAt(s, r, c), SumAt(t, r, c))
  {
    if t == [] {
      assert s + t == s;
    } else {
      var n := |t| - 1;
      SumAtAppend(s, t[..n], r, c);
      assert (s + t)[..|s + t| - 1] == s + t[..n];
      AddAssoc(SumAt(s, r, c), SumAt(t[..n], r, c), t[n].val);
    }
  }

  // ----- from_triplets -----

  /** Nonzero triplets lie inside the matrix. */
  ghost predicate NonzeroInBounds(t: seq<Triplet>, nrows: nat, ncols: nat) {
    forall i :: 0 <= i < |t| && t[i].val != 0 ==> t[i].row < nrows && t[i].col < ncols
  }

  /** `retain` of nonzero values. */
  method DropZeros(t: seq<Triplet>, ghost nrows: nat, ghost ncols: nat) returns (r: seq<Triplet>)
    requires NonzeroInBounds(t, nrows, ncols)
    ensures NoZeros(r) && InBounds(r, nrows, ncols)
    ensures forall i, j :: SumAt(r, i, j) == SumAt(t, i, j)
  {
    r := [];
    for n := 0 to |t|
      invariant NoZeros(r) && InBounds(r, nrows, ncols)
      invariant forall i, j :: SumAt(r, i, j) == SumAt(t[..n], i, j)
    {
      assert t[..n + 1][..n] == t[..n] && t[..n + 1][n] == t[n];
      if t[n].val != 0 {
        ghost var before := r;
        r := r + [t[n]];
        assert r[..|before|] == before;
      }
    }
    assert t[..|t|] == t;
  }

  /** Any sort by (column, row) will do: it keeps the sums and the bounds. */
  method SortTriplets(t: seq<Triplet>, ghost nrows: nat, ghost ncols: nat) returns (r: seq<Triplet>)
    requires NoZeros(t) && InBounds(t, nrows, ncols)
    ensures Sorted(r) && NoZeros(r) && InBounds(r, nrows, ncols)
    ensures forall i, j :: SumAt(r, i, j) == SumAt(t, i, j)
  {
    r := [];
    hide SumAt;
    EmptySum(t);
    for n := 0 to |t|
      invariant Sorted(r) && NoZeros(r) && InBounds(r, nrows, ncols)
      invariant forall i, j :: SumAt(r, i, j) == SumAt(t[..n], i, j)
    {
      r := Insert(r, t[n], nrows, ncols);
      SumAtSnoc(t, n);
    }
    assert t[..|t|] == t;
  }

  lemma EmptySum(t: seq<Triplet>)
    ensures forall i, j :: SumAt([], i, j) == SumAt(t[..0], i, j) == 0
  {}

  lemma SumAtSnoc(t: seq<Triplet>, n: nat)
    requires n < |t|
    ensures forall i, j :: SumAt(t[..n + 1], i, j) == Add(SumAt(t[..n], i, j), SumAt([t[n]], i, j))
  {
    forall i, j
      ensures SumAt(t[..n + 1], i, j) == Add(SumAt(t[..n], i, j), SumAt([t[n]], i, j))
    {
      assert t[..n + 1] == t[..n] + [t[n]];
      SumAtAppend(t[..n], [t[n]], i, j);
    }
  }

  method Insert(t: seq<Triplet>, x: Triplet, ghost nrows: nat, ghost ncols: nat) returns (r: seq<Triplet>)
    requires Sorted(t) && NoZeros(t) && InBounds(t, nrows, ncols)
    requires x.val != 0 && x.row < nrows && x.col < ncols
    ensures Sorted(r) && NoZeros(r) && InBounds(r, nrows, ncols)
    ensures forall i, j :: SumAt(r, i, j) == Add(SumAt(t, i, j), SumAt([x], i, j))
  {
    var p := |t|;
    while p > 0 && !NotAfter(t[p - 1], x)
      invariant 0 <= p <= |t|
      invariant forall i :: p <= i < |t| ==> NotAfter(x, t[i])
    {
      p := p - 1;
    }
    r := t[..p] + [x] + t[p..];
    SortedInsert(t, x, p);
    hide SumAt, Sorted;
    forall i, j
      ensures SumAt(r, i, j) == Add(SumAt(t, i, j), SumAt([x], i, j))
    {
      InsertedSum(t, x, p, i, j);
    }
  }

  lemma InsertedSum(t: seq<Triplet>, x: Triplet, p: nat, i: nat, j: nat)
    requires p <= |t|
    ensures SumAt(t[..p] + [x] + t[p..], i, j) == Add(SumAt(t, i, j), SumAt([x], i, j))
  {
    hide SumAt;
    SumAtAppend(t[..p] + [x], t[p..], i, j);
    SumAtAppend(t[..p], [x], i, j);
    SumAtAppend(t[..p], t[p..], i, j);
    assert t[..p] + t[p..] == t;
    AddAssoc(SumAt(t[..p], i, j), SumAt([x], i, j), SumAt(t[p..], i, j));
    AddAssoc(SumAt(t[..p], i, j), SumAt(t[p..], i, j), SumAt([x], i, j));
  }

  lemma SortedInsert(t: seq<Triplet>, x: Triplet, p: nat)
    requires Sorted(t) && p <= |t|
    requires p > 0 ==> NotAfter(t[p - 1], x)
    requires forall i :: p <= i < |t| ==> NotAfter(x, t[i])
    ensures Sorted(t[..p] + [x] + t[p..])
  {
    var r := t[..p] + [x] + t[p..];
    forall i, j | 0 <= i < j < |r|
      ensures NotAfter(r[i], r[j])
    {
      if i < p && p > 0 {
        assert NotAfter(t[i], t[p - 1]) || i == p - 1;
      }
    }
  }

  /** Equal positions are merged; a position that cancels is dropped. */
  method Merge(t: seq<Triplet>, ghost nrows: nat, ghost ncols: nat) returns (entries: seq<Triplet>)
    requires Sorted(t) && NoZeros(t) && InBounds(t, nrows, ncols)
    ensures StrictlySorted(entries) && NoZeros(entries) && InBounds(entries, nrows, ncols)
    ensures forall i, j :: SumAt(entries, i, j) == SumAt(t, i, j)
  {
    entries := [];
    hide SumAt;
    EmptySum(t);
    for n := 0 to |t|
      invariant StrictlySorted(entries) && NoZeros(entries) && InBounds(entries, nrows, ncols)
      invariant forall i, j :: SumAt(entries, i, j) == SumAt(t[..n], i, j)
      invariant forall k :: 0 <= k < |entries| && n < |t| ==> NotAfter(entries[k], t[n])
    {
      SumAtSnoc(t, n);
      entries := MergeStep(entries, t[n], nrows, ncols);
      if n + 1 < |t| {
        assert NotAfter(t[n], t[n + 1]);
      }
    }
    assert t[..|t|] == t;
  }

  method MergeStep(entries: seq<Triplet>, x: Triplet, ghost nrows: nat, ghost ncols: nat) returns (r: seq<Triplet>)
    requires StrictlySorted(entries) && NoZeros(entries) && InBounds(entries, nrows, ncols)
    requires x.val != 0 && x.row < nrows && x.col < ncols
    requires forall k :: 0 <= k < |entries| ==> NotAfter(entries[k], x)
    ensures StrictlySorted(r) && NoZeros(r) && InBounds(r, nrows, ncols)
    ensures forall i, j :: SumAt(r, i, j) == Add(SumAt(entries, i, j), SumAt([x], i, j))
    ensures forall k :: 0 <= k < |r| ==> NotAfter(r[k], x)
  {
    var n := |entries|;
    if n > 0 && entries[n - 1].row == x.row && entries[n - 1].col == x.col {
      var last := entries[n - 1];
      var sum := Add(last.val, x.val);
      MergedSums(entries, x, sum);
      if sum == 0 {
        r := entries[..n - 1];
      } else {
        r := entries[..n - 1] + [last.(val := sum)];
      }
    } else {
      r := entries + [x];
      forall i, j
        ensures SumAt(r, i, j) == Add(SumAt(entries, i, j), SumAt([x], i, j))
      {
        SumAtAppend(entries, [x], i, j);
      }
      if n > 0 {
        assert Before(entries[n - 1], x);
      }
    }
  }

  lemma MergedSums(entries: seq<Triplet>, x: Triplet, sum: Fq)
    requires entries != []
    requires var last := entries[|entries| - 1]; last.row == x.row && last.col == x.col && sum == Add(last.val, x.val)
    ensures var rest := entries[..|entries| - 1];
            var merged := rest + [Triplet(x.row, x.col, sum)];
            forall i, j ::
              && SumAt(merged, i, j) == Add(SumAt(entries, i, j), SumAt([x], i, j))
              && (sum == 0 ==> SumAt(rest, i, j) == Add(SumAt(entries, i, j), SumAt([x], i, j)))
  {
    var n := |entries| - 1;
    var rest, last := entries[..n], entries[n];
    var merged := rest + [Triplet(x.row, x.col, sum)];
    forall i, j
      ensures SumAt(merged, i, j) == Add(SumAt(entries, i, j), SumAt([x], i, j))
      ensures sum == 0 ==> SumAt(rest, i, j) == Add(SumAt(entries, i, j), SumAt([x], i, j))
    {
      assert merged[..n] == rest;
      assert [x][..0] == [];
      AddAssoc(SumAt(rest, i, j), last.val, x.val);
    }
  }

  // ----- the compressed form -----

  datatype CscMat = CscMat(nrows: nat, ncols: nat, colPtr: seq<nat>, rowIdx: seq<nat>, vals: seq<Fq>) {
    ghost predicate Valid() {
      && |colPtr| == ncols + 1 && colPtr[0] == 0 && colPtr[ncols] == |rowIdx| == |vals|
      && (forall c, d :: 0 <= c <= d <= ncols ==> colPtr[c] <= colPtr[d])
      && (forall k :: 0 <= k < |rowIdx| ==> rowIdx[k] < nrows)
    }

    /** The first entries of column c, up to index k. */
    function ColumnAt(r: nat, lo: nat, k: nat): Fq
      requires Valid() && lo <= k <= |vals|
      decreases k
    {
      if k == lo then 0
      else if rowIdx[k - 1] == r then Add(ColumnAt(r, lo, k - 1), vals[k - 1])
      else ColumnAt(r, lo, k - 1)
    }

    /** The entry at (r, c); zero outside the matrix. */
    function Entry(r: nat, c: nat): Fq
      requires Valid()
    {
      if c < ncols then
        assert colPtr[c] <= colPtr[c + 1] <= colPtr[ncols];
        ColumnAt(r, colPtr[c], colPtr[c + 1])
      else 0
    }
  }

  /** Entries before column c. */
  function CountBefore(t: seq<Triplet>, c: nat): nat {
    if t == [] then 0
    else CountBefore(t[..|t| - 1], c) + if t[|t| - 1].col < c then 1 else 0
  }

  lemma {:induction false} CountIsPosition(t: seq<Triplet>, c: nat)
    requires StrictlySorted(t)
    ensures CountBefore(t, c) <= |t|
    ensures forall i :: 0 <= i < |t| ==> (t[i].col < c <==> i < CountBefore(t, c))
  {
    if t != [] {
      var n := |t| - 1;
      CountIsPosition(t[..n], c);
      if n > 0 {
        assert Before(t[n - 1], t[n]);
      }
    }
  }

  /** Column pointers: prefix sums of the column counts. */
  method ColumnPointers(t: seq<Triplet>, ncols: nat) returns (ptr: seq<nat>)
    requires StrictlySorted(t) && forall i :: 0 <= i < |t| ==> t[i].col < ncols
    ensures |ptr| == ncols + 1 && forall c :: 0 <= c <= ncols ==> ptr[c] == CountBefore(t, c)
  {
    var counts := ColumnCounts(t, ncols);
    ptr := [0];
    CountBeforeZero(t);
    for c := 0 to ncols
      invariant |ptr| == c + 1
      invariant forall k :: 0 <= k <= c ==> ptr[k] == CountBefore(t, k)
    {
      ptr := ptr + [ptr[c] + counts[c]];
    }
  }

  lemma {:induction false} CountBeforeZero(t: seq<Triplet>)
    ensures CountBefore(t, 0) == 0
  {
    if t != [] {
      CountBeforeZero(t[..|t| - 1]);
    }
  }

  method ColumnCounts(t: seq<Triplet>, ncols: nat) returns (counts: seq<nat>)
    requires forall i :: 0 <= i < |t| ==> t[i].col < ncols
    ensures |counts| == ncols
    ensures forall c :: 0 <= c < ncols ==> CountBefore(t, c + 1) == CountBefore(t, c) + counts[c]
  {
    counts := seq(ncols, i => 0);
    for n := 0 to |t|
      invariant |counts| == ncols
      invariant forall c :: 0 <= c < ncols ==> CountBefore(t[..n], c + 1) == CountBefore(t[..n], c) + counts[c]
    {
      assert t[..n + 1][..n] == t[..n] && t[..n + 1][n] == t[n];
      var c := t[n].col;
      counts := counts[c := counts[c] + 1];
    }
    assert t[..|t|] == t;
  }

  /** Scatters the entries through the moving `next` pointers: entry i lands at index i. */
  method Scatter(t: seq<Triplet>, ptr: seq<nat>, ncols: nat) returns (rowIdx: seq<nat>, vals: seq<Fq>)
    requires StrictlySorted(t) && forall i :: 0 <= i < |t| ==> t[i].col < ncols
    requires |ptr| == ncols + 1 && forall c :: 0 <= c <= ncols ==> ptr[c] == CountBefore(t, c)
    ensures |rowIdx| == |vals| == |t| == ptr[ncols]
    ensures forall i :: 0 <= i < |t| ==> rowIdx[i] == t[i].row && vals[i] == t[i].val
  {
    CountIsPosition(t, ncols);
    var nnz := ptr[ncols];
    rowIdx := seq(nnz, i => 0);
    vals := seq(nnz, i => 0);
    var next := ptr;
    for i := 0 to |t|
      invariant |next| == ncols + 1 && |rowIdx| == |vals| == |t|
      invariant forall k :: 0 <= k < i ==> rowIdx[k] == t[k].row && vals[k] == t[k].val
      invariant forall c :: 0 <= c < ncols ==> next[c] == NextSlot(t, c, i)
    {
      var c := t[i].col;
      NextSlotIs(t, i);
      var k := next[c];
      rowIdx := rowIdx[k := t[i].row];
      vals := vals[k := t[i].val];
      next := next[c := next[c] + 1];
    }
  }

  /** Where the next entry of column c goes once i entries are placed. */
  ghost function NextSlot(t: seq<Triplet>, c: nat, i: nat): int {
    var (lo, hi) := (CountBefore(t, c), CountBefore(t, c + 1));
    if i <= lo then lo else if i <= hi then i else hi
  }

  lemma NextSlotIs(t: seq<Triplet>, i: nat)
    requires StrictlySorted(t) && i < |t|
    ensures NextSlot(t, t[i].col, i) == i
    ensures forall c: nat :: NextSlot(t, c, i + 1) == if c == t[i].col then i + 1 else NextSlot(t, c, i)
  {
    forall c: nat
      ensures NextSlot(t, c, i + 1) == if c == t[i].col then i + 1 else NextSlot(t, c, i)
      ensures c == t[i].col ==> NextSlot(t, c, i) == i
    {
      CountIsPosition(t, c);
      CountIsPosition(t, c + 1);
      CountsAscend(t, c, c + 1);
    }
  }

  /** `CscMat::from_triplets`: the matrix whose entries are the sums of the triplets. */
  method FromTriplets(triplets: seq<Triplet>, nrows: nat, ncols: nat) returns (m: CscMat)
    requires NonzeroInBounds(triplets, nrows, ncols)
    ensures m.Valid() && m.nrows == nrows && m.ncols == ncols
    ensures forall r, c :: m.Entry(r, c) == SumAt(triplets, r, c)
    ensures forall k :: 0 <= k < |m.vals| ==> m.vals[k] != 0
    ensures RowsAscend(m)
  {
    hide SumAt;
    var nonzero := DropZeros(triplets, nrows, ncols);
    var sorted := SortTriplets(nonzero, nrows, ncols);
    var entries := Merge(sorted, nrows, ncols);
    var ptr := ColumnPointers(entries, ncols);
    var rowIdx, vals := Scatter(entries, ptr, ncols);
    m := CscMat(nrows, ncols, ptr, rowIdx, vals);
    Compressed(entries, m);
  }

  /** Rows strictly ascend within every column, as binary search needs. */
  ghost predicate RowsAscend(m: CscMat)
    requires m.Valid()
  {
    forall c, i, j :: 0 <= c < m.ncols && m.colPtr[c] <= i < j < m.colPtr[c + 1] ==> m.rowIdx[i] < m.rowIdx[j]
  }

  ghost predicate Holds(t: seq<Triplet>, m: CscMat) {
    && StrictlySorted(t) && NoZeros(t) && InBounds(t, m.nrows, m.ncols)
    && |m.colPtr| == m.ncols + 1 && (forall c :: 0 <= c <= m.ncols ==> m.colPtr[c] == CountBefore(t, c))
    && |m.rowIdx| == |m.vals| == |t| == m.colPtr[m.ncols]
    && forall i :: 0 <= i < |t| ==> m.rowIdx[i] == t[i].row && m.vals[i] == t[i].val
  }

  lemma Compressed(t: seq<Triplet>, m: CscMat)
    requires Holds(t, m)
    ensures m.Valid() && RowsAscend(m)
    ensures forall r, c :: m.Entry(r, c) == SumAt(t, r, c)
  {
    CompressedValid(t, m);
    hide Holds, RowsAscend, SumAt, CscMat.Entry;
    forall r: nat, c: nat
      ensures m.Entry(r, c) == SumAt(t, r, c)
    {
      CompressedEntry(t, m, r, c);
    }
  }

  lemma CompressedValid(t: seq<Triplet>, m: CscMat)
    requires Holds(t, m)
    ensures m.Valid() && RowsAscend(m)
  {
    CountBeforeZero(t);
    forall c, d | 0 <= c <= d <= m.ncols
      ensures m.colPtr[c] <= m.colPtr[d]
    {
      CountsAscend(t, c, d);
    }
    forall c, i, j | 0 <= c < m.ncols && m.colPtr[c] <= i < j < m.colPtr[c + 1]
      ensures m.rowIdx[i] < m.rowIdx[j]
    {
      assert m.colPtr[c + 1] <= m.colPtr[m.ncols];
      CountIsPosition(t, c);
      CountIsPosition(t, c + 1);
      assert Before(t[i], t[j]);
    }
  }

  lemma CompressedEntry(t: seq<Triplet>, m: CscMat, r: nat, c: nat)
    requires Holds(t, m) && m.Valid()
    ensures m.Entry(r, c) == SumAt(t, r, c)
  {
    hide StrictlySorted;
    CountIsPosition(t, c);
    CountIsPosition(t, c + 1);
    if c < m.ncols {
      assert t[..|t|] == t;
      ColumnIsSum(t, m, r, c, |t|);
    } else {
      NothingInColumn(t, r, c);
    }
  }

  lemma {:induction false} CountsAscend(t: seq<Triplet>, c: nat, d: nat)
    requires c <= d
    ensures CountBefore(t, c) <= CountBefore(t, d)
  {
    if t != [] {
      CountsAscend(t[..|t| - 1], c, d);
    }
  }

  lemma {:induction false} NothingInColumn(t: seq<Triplet>, r: nat, c: nat)
    requires forall i :: 0 <= i < |t| ==> t[i].col != c
    ensures SumAt(t, r, c) == 0
  {
    if t != [] {
      NothingInColumn(t[..|t| - 1], r, c);
    }
  }

  lemma {:induction false} ColumnIsSum(t: seq<Triplet>, m: CscMat, r: nat, c: nat, n: nat)
    requires Holds(t, m) && m.Valid() && c < m.ncols && n <= |t|
    requires forall i :: 0 <= i < |t| ==> (t[i].col == c <==> m.colPtr[c] <= i < m.colPtr[c + 1])
    ensures var (lo, hi) := (m.colPtr[c], m.colPtr[c + 1]);
            lo <= hi <= |m.vals| &&
            SumAt(t[..n], r, c) == m.ColumnAt(r, lo, if n < lo then lo else if n < hi then n else hi)
  {
    assert m.colPtr[c] <= m.colPtr[c + 1] <= m.colPtr[m.ncols];
    if n != 0 {
      ColumnIsSum(t, m, r, c, n - 1);
      assert t[..n][..n - 1] == t[..n - 1];
    }
  }

  // ----- products -----

  /** Row r of A x over the first n columns. */
  function RowDot(m: CscMat, x: seq<K>, r: nat, n: nat): K
    requires m.Valid() && n <= |x|
  {
    if n == 0 then KZero
    else KAdd(RowDot(m, x, r, n - 1), KMul(FromBase(m.Entry(r, n - 1)), x[n - 1]))
  }

  /** Column c of A^T x over the first n rows. */
  function ColumnDot(m: CscMat, x: seq<K>, c: nat, n: nat): K
    requires m.Valid() && n <= |x|
  {
    if n == 0 then KZero
    else KAdd(ColumnDot(m, x, c, n - 1), KMul(FromBase(m.Entry(n - 1, c)), x[n - 1]))
  }

  lemma FromBaseAdd(a: Fq, b: Fq, x: K)
    ensures KMul(FromBase(Add(a, b)), x) == KAdd(KMul(FromBase(a), x), KMul(FromBase(b), x))
    ensures KMul(FromBase(0), x) == KZero
  {
    BaseIsHomomorphic(a, b);
    KMulAdd(x, FromBase(a), FromBase(b));
    KMulOne(x);
    hide KMul;
  }

  /** `add_mul_into`: y += A x on the first nEff rows, the others unchanged. */
  method AddMulInto(m: CscMat, x: seq<K>, y: array<K>, nEff: nat)
    requires m.Valid() && |x| == m.ncols && nEff <= m.nrows && nEff <= y.Length
    modifies y
    ensures forall r :: 0 <= r < y.Length ==>
      y[r] == if r < nEff then KAdd(old(y[r]), RowDot(m, x, r, m.ncols)) else old(y[r])
  {
    hide KMul, KAdd;
    forall r | 0 <= r < y.Length
      ensures KAdd(y[r], KZero) == y[r]
    {
      KAddZero(y[r]);
    }
    for c := 0 to m.ncols
      invariant forall r :: 0 <= r < y.Length ==>
        y[r] == if r < nEff then KAdd(old(y[r]), RowDot(m, x, r, c)) else old(y[r])
    {
      AddColumn(m, x[c], y, c, nEff);
      forall r | 0 <= r < nEff
        ensures y[r] == KAdd(old(y[r]), RowDot(m, x, r, c + 1))
      {
        KAddAssoc(old(y[r]), RowDot(m, x, r, c), KMul(FromBase(m.Entry(r, c)), x[c]));
      }
    }
  }

  method AddColumn(m: CscMat, xc: K, y: array<K>, c: nat, nEff: nat)
    requires m.Valid() && c < m.ncols && nEff <= y.Length
    modifies y
    ensures forall r :: 0 <= r < y.Length ==>
      y[r] == if r < nEff then KAdd(old(y[r]), KMul(FromBase(m.Entry(r, c)), xc)) else old(y[r])
  {
    hide KMul, KAdd;
    ghost var lo := m.colPtr[c];
    FromBaseAdd(0, 0, xc);
    forall r | 0 <= r < y.Length
      ensures KAdd(y[r], KZero) == y[r]
    {
      KAddZero(y[r]);
    }
    for k := m.colPtr[c] to m.colPtr[c + 1]
      invariant forall r :: 0 <= r < y.Length ==>
        y[r] == if r < nEff then KAdd(old(y[r]), KMul(FromBase(m.ColumnAt(r, lo, k)), xc)) else old(y[r])
    {
      var r := m.rowIdx[k];
      FromBaseAdd(m.ColumnAt(r, lo, k), m.vals[k], xc);
      if r < nEff {
        KAddAssoc(old(y[r]), KMul(FromBase(m.ColumnAt(r, lo, k)), xc), KMul(FromBase(m.vals[k]), xc));
        y[r] := KAdd(y[r], KMul(FromBase(m.vals[k]), xc));
      }
    }
  }

  /** `add_mul_transpose_into`: y += A^T x over the first nEff rows. */
  method AddMulTransposeInto(m: CscMat, x: seq<K>, y: array<K>, nEff: nat)
    requires m.Valid() && nEff <= m.nrows && nEff <= |x| && y.Length == m.ncols
    modifies y
    ensures forall c :: 0 <= c < m.ncols ==> y[c] == KAdd(old(y[c]), ColumnDot(m, x, c, nEff))
  {
    for c := 0 to m.ncols
      invariant forall d :: 0 <= d < m.ncols ==>
        y[d] == if d < c then KAdd(old(y[d]), ColumnDot(m, x, d, nEff)) else old(y[d])
    {
      var sum := ColumnTimes(m, x, c, nEff, y[c]);
      y[c] := sum;
    }
  }

  method ColumnTimes(m: CscMat, x: seq<K>, c: nat, nEff: nat, start: K) returns (acc: K)
    requires m.Valid() && c < m.ncols && nEff <= |x|
    ensures acc == KAdd(start, ColumnDot(m, x, c, nEff))
  {
    hide KMul, KAdd;
    acc := start;
    ghost var lo := m.colPtr[c];
    SparseColumnEmpty(m, x, lo, nEff);
    KAddZero(start);
    for k := m.colPtr[c] to m.colPtr[c + 1]
      invariant acc == KAdd(start, SparseColumn(m, x, lo, k, nEff))
    {
      SparseColumnStep(m, x, lo, k, nEff);
      var r := m.rowIdx[k];
      if r < nEff {
        KAddAssoc(start, SparseColumn(m, x, lo, k, nEff), KMul(FromBase(m.vals[k]), x[r]));
        acc := KAdd(acc, KMul(FromBase(m.vals[k]), x[r]));
      } else {
        KAddZero(SparseColumn(m, x, lo, k, nEff));
      }
    }
    SparseColumnIsDot(m, x, c, nEff);
  }

  /** The column sum over the stored entries lo..k, as a sum over rows. */
  ghost function SparseColumn(m: CscMat, x: seq<K>, lo: nat, k: nat, n: nat): K
    requires m.Valid() && lo <= k <= |m.vals| && n <= |x|
  {
    if n == 0 then KZero
    else KAdd(SparseColumn(m, x, lo, k, n - 1), KMul(FromBase(m.ColumnAt(n - 1, lo, k)), x[n - 1]))
  }

  lemma {:induction false} SparseColumnEmpty(m: CscMat, x: seq<K>, lo: nat, n: nat)
    requires m.Valid() && lo <= |m.vals| && n <= |x|
    ensures SparseColumn(m, x, lo, lo, n) == KZero
  {
    hide KMul, KAdd;
    if n != 0 {
      SparseColumnEmpty(m, x, lo, n - 1);
      FromBaseAdd(0, 0, x[n - 1]);
      KAddZero(KZero);
    }
  }

  lemma {:induction false} SparseColumnStep(m: CscMat, x: seq<K>, lo: nat, k: nat, n: nat)
    requires m.Valid() && lo <= k < |m.vals| && n <= |x|
    ensures SparseColumn(m, x, lo, k + 1, n)
         == KAdd(SparseColumn(m, x, lo, k, n),
                 if m.rowIdx[k] < n then KMul(FromBase(m.vals[k]), x[m.rowIdx[k]]) else KZero)
  {
    hide KMul, KAdd;
    if n == 0 {
      KAddZero(KZero);
    } else {
      SparseColumnStep(m, x, lo, k, n - 1);
      var a, b := SparseColumn(m, x, lo, k, n - 1), KMul(FromBase(m.ColumnAt(n - 1, lo, k)), x[n - 1]);
      var e := if m.rowIdx[k] < n then KMul(FromBase(m.vals[k]), x[m.rowIdx[k]]) else KZero;
      if m.rowIdx[k] == n - 1 {
        FromBaseAdd(m.ColumnAt(n - 1, lo, k), m.vals[k], x[n - 1]);
        KAddZero(a);
        KAddAssoc(a, b, e);
      } else {
        KAddAssoc(a, e, b);
        KAddComm(e, b);
        KAddAssoc(a, b, e);
      }
    }
  }

  lemma {:induction false} SparseColumnIsDot(m: CscMat, x: seq<K>, c: nat, n: nat)
    requires m.Valid() && c < m.ncols && n <= |x|
    ensures SparseColumn(m, x, m.colPtr[c], m.colPtr[c + 1], n) == ColumnDot(m, x, c, n)
  {
    hide KMul, KAdd;
    if n != 0 {
      SparseColumnIsDot(m, x, c, n - 1);
    }
  }

  // ----- CCS matrices -----

  datatype CcsMatrix = Identity(n: nat) | Sparse(csc: CscMat) {
    ghost predicate Valid() { Sparse? ==> csc.Valid() && RowsAscend(csc) }

    function Rows(): nat { if Identity? then n else csc.nrows }

    function Cols(): nat { if Identity? then n else csc.ncols }

    /** `matrix_entry`: zero outside the matrix. */
    function At(r: nat, c: nat): Fq
      requires Valid()
    {
      if r >= Rows() || c >= Cols() then 0
      else if Identity? then if r == c then 1 else 0
      else csc.Entry(r, c)
    }
  }

  /** Row r of M x over the first k columns. */
  function MatRowDot(mat: CcsMatrix, x: seq<K>, r: nat, k: nat): K
    requires mat.Valid() && k <= |x|
  {
    if k == 0 then KZero
    else KAdd(MatRowDot(mat, x, r, k - 1), KMul(FromBase(mat.At(r, k - 1)), x[k - 1]))
  }

  /** A unit vector picks one entry out of the row. */
  lemma {:induction false} RowDotOfUnit(mat: CcsMatrix, x: seq<K>, r: nat, c: nat, k: nat)
    requires mat.Valid() && c < |x| && k <= |x|
    requires forall i :: 0 <= i < |x| ==> x[i] == if i == c then KOne else KZero
    ensures MatRowDot(mat, x, r, k) == if c < k then FromBase(mat.At(r, c)) else KZero
  {
    hide KMul, KAdd, CcsMatrix.At;
    if k != 0 {
      RowDotOfUnit(mat, x, r, c, k - 1);
      KMulOne(FromBase(mat.At(r, k - 1)));
      KAddZero(FromBase(mat.At(r, c)));
      KAddZero(KZero);
    }
  }

  lemma {:induction false} SparseRowDot(mat: CcsMatrix, x: seq<K>, r: nat, k: nat)
    requires mat.Valid() && mat.Sparse? && k <= |x| && k <= mat.Cols() && r < mat.Rows()
    ensures MatRowDot(mat, x, r, k) == RowDot(mat.csc, x, r, k)
  {
    if k != 0 {
      SparseRowDot(mat, x, r, k - 1);
    }
  }

  lemma {:induction false} IdentityRowDot(mat: CcsMatrix, x: seq<K>, r: nat, k: nat)
    requires mat.Identity? && k <= |x| && k <= mat.n && r < mat.n
    ensures MatRowDot(mat, x, r, k) == if r < k then x[r] else KZero
  {
    hide KMul, KAdd;
    if k != 0 {
      IdentityRowDot(mat, x, r, k - 1);
      KMulOne(x[k - 1]);
      KAddZero(x[k - 1]);
      if r < k {
        KAddZero(x[r]);
      }
      KAddZero(KZero);
      assert FromBase(1) == KOne && FromBase(0) == KZero;
    }
  }

  /** `CcsMatrix::add_mul_into`. */
  method MulInto(mat: CcsMatrix, x: seq<K>, y: array<K>, nEff: nat)
    requires mat.Valid() && |x| == mat.Cols() && nEff <= mat.Rows() && nEff <= y.Length
    modifies y
    ensures forall r :: 0 <= r < y.Length ==>
      y[r] == if r < nEff then KAdd(old(y[r]), MatRowDot(mat, x, r, mat.Cols())) else old(y[r])
  {
    hide KMul, KAdd, RowDot, MatRowDot, CcsMatrix.At;
    if mat.Sparse? {
      forall r | 0 <= r < nEff
        ensures MatRowDot(mat, x, r, mat.Cols()) == RowDot(mat.csc, x, r, mat.Cols())
      {
        SparseRowDot(mat, x, r, mat.Cols());
      }
      AddMulInto(mat.csc, x, y, nEff);
    } else {
      for i := 0 to nEff
        invariant forall r :: 0 <= r < y.Length ==>
          y[r] == if r < i then KAdd(old(y[r]), MatRowDot(mat, x, r, mat.Cols())) else old(y[r])
      {
        IdentityRowDot(mat, x, i, mat.Cols());
        y[i] := KAdd(y[i], x[i]);
      }
    }
  }
}
