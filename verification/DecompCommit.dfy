/** Committing to a decomposition: column-major and row-major digits have one commitment. */
module DecompCommit {
  import opened Field
  import opened Vectors
  import opened Ring
  import opened Ajtai
  import opened Streaming
  import opened Decomp

  /** The digits of every entry as columns. */
  function DigitColumns(z: seq<Fq>, b: int, style: Style): (cols: seq<Rq>)
    requires b >= 2
    ensures |cols| == |z| && forall j, t :: 0 <= j < |z| && 0 <= t < D ==> cols[j][t] == DigitOf(style, z[j], b, t)
  {
    seq(|z|, j requires 0 <= j < |z| => DigitColumn(z[j], b, style))
  }

  function DigitColumn(x: Fq, b: int, style: Style): (col: Rq)
    requires b >= 2
    ensures forall t :: 0 <= t < D ==> col[t] == DigitOf(style, x, b, t)
  {
    seq(D, t requires 0 <= t < D => DigitOf(style, x, b, t))
  }

  lemma FlatColumns(out: seq<Fq>, z: seq<Fq>, b: int, style: Style)
    requires b >= 2 && IsColumnMajor(out, z, b, D, style)
    ensures |out| % D == 0 && |out| / D == |z| && ColumnsOfFlat(out) == DigitColumns(z, b, style)
  {
    hide DigitOf;
    assert |out| == |z| * D;
    var cols := ColumnsOfFlat(out);
    forall j, t | 0 <= j < |z| && 0 <= t < D
      ensures cols[j][t] == DigitOf(style, z[j], b, t)
    {
      LineFits(j, |z|, D);
      assert Cell(out, j, D, t) == DigitOf(style, z[j], b, t);
    }
    assert forall j :: 0 <= j < |z| ==> cols[j] == DigitColumns(z, b, style)[j];
  }

  /** Cuts a buffer into lines. */
  method Lines(out: seq<Fq>, rows: nat, m: nat) returns (z: seq<Vec>)
    requires |out| == rows * m
    ensures |z| == rows && forall t :: 0 <= t < rows ==> |z[t]| == m
    ensures forall t, j :: 0 <= t < rows && 0 <= j < m ==> z[t][j] == Cell(out, t, m, j)
  {
    z := [];
    for t := 0 to rows
      invariant |z| == t && forall k :: 0 <= k < t ==> |z[k]| == m
      invariant forall k, j :: 0 <= k < t && 0 <= j < m ==> z[k][j] == Cell(out, k, m, j)
    {
      LineFits(t, rows, m);
      z := z + [out[t * m..t * m + m]];
    }
  }

  lemma RowColumns(rows: seq<Vec>, out: seq<Fq>, z: seq<Fq>, b: int, style: Style)
    requires b >= 2 && IsRowMajor(out, z, b, D, style) && Streaming.RowMajor(rows, |z|)
    requires forall t, j :: 0 <= t < D && 0 <= j < |z| ==> rows[t][j] == Cell(out, t, |z|, j)
    ensures ColumnsOfRows(rows, |z|) == DigitColumns(z, b, style)
  {
    hide DigitOf, Cell;
    var cols := ColumnsOfRows(rows, |z|);
    forall j | 0 <= j < |z|
      ensures cols[j] == DigitColumns(z, b, style)[j]
    {
      assert forall t :: 0 <= t < D ==> cols[j][t] == rows[t][j] == Cell(out, t, |z|, j);
    }
  }

  /**
   `decomp_b` then `try_commit`, and `decomp_b_row_major` then `try_commit_row_major`: both are the
   commitment of the digit columns, wherever the row-major loop reaches its end.
   */
  method CommitDecomposed(pp: PP, z: seq<Fq>, b: int, style: Style, schedule: Schedule)
    returns (flat: Commitment, byRows: Commitment)
    requires pp.Valid() && pp.m == |z| && 2 <= b < 0x1_0000_0000
    requires !(b == 3 && style.Balanced? && HasNegativeTwo(z, D))
    ensures flat == byRows == CommitSpec(pp.rows, DigitColumns(z, b, style))
  {
    hide CommitSpec, HasNegativeTwo, IsColumnMajor, IsRowMajor;
    var out := DecompB(z, b, D, style);
    FlatColumns(out, z, b, style);
    var c := TryCommit(pp, out, schedule);
    flat := c.value;
    var rm := DecompRowMajor(z, b, D, style);
    assert |rm.out| == D * |z| by { RowMajorSize(rm.out, z, b, style); }
    var rows := Lines(rm.out, D, |z|);
    RowColumns(rows, rm.out, z, b, style);
    var r := TryCommitRowMajor(pp, D, |z|, rows, schedule);
    byRows := r.value;
  }

  lemma RowMajorSize(out: seq<Fq>, z: seq<Fq>, b: int, style: Style)
    requires b >= 2 && IsRowMajor(out, z, b, D, style)
    ensures |out| == D * |z|
  {}
}
