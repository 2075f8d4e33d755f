/** Chunk layouts: the partitioner and the two validators of what it produces. */
module Layout {
  import opened Arithmetic

  datatype FoldSchedule = WholeTrace | RowsPerChunk(rows: nat) {
    predicate Valid() { this != RowsPerChunk(0) }
  }

  datatype Chunk<T> = Chunk(start: nat, steps: seq<T>)

  datatype LayoutError =
    | ZeroRows
    | EmptyChunk(idx: nat)
    | WrongStart(idx: nat)
    | TooManySteps(idx: nat)
    | ShortChunk(idx: nat)
    | SeveralChunks
    | WrongCount
    | WrongTotal
    | Overflow(idx: nat)

  datatype Verdict = Accepted | Rejected(error: LayoutError)

  datatype Cutting<T> = Cutting(chunks: seq<Chunk<T>>) | InvalidSchedule

  // ----- reference -----

  function Min(a: nat, b: nat): (m: nat)
    ensures m <= a && m <= b && (m == a || m == b)
  {
    if a < b then a else b
  }

  /** Consecutive pieces of at most len items, starting at the given index. */
  function Cut<T>(items: seq<T>, len: nat, start: nat): seq<Chunk<T>>
    requires len > 0
  {
    if items == [] then []
    else
      var n := Min(len, |items|);
      [Chunk(start, items[..n])] + Cut(items[n..], len, start + n)
  }

  /** The pieces of a schedule. */
  function Partition<T>(schedule: FoldSchedule, items: seq<T>): seq<Chunk<T>>
    requires schedule.Valid()
  {
    if items == [] then []
    else Cut(items, if schedule.WholeTrace? then |items| else schedule.rows, 0)
  }

  function Concat<T>(chunks: seq<Chunk<T>>): seq<T> {
    if chunks == [] then [] else chunks[0].steps + Concat(chunks[1..])
  }

  // ----- the partitioner -----

  /** `partition_items`. */
  method PartitionItems<T>(schedule: FoldSchedule, items: seq<T>) returns (r: Cutting<T>)
    ensures r.Cutting? <==> schedule.Valid()
    ensures r.Cutting? ==> r.chunks == Partition(schedule, items)
  {
    if schedule == RowsPerChunk(0) {
      return InvalidSchedule;
    }
    if items == [] {
      return Cutting([]);
    }
    var chunkLen := if schedule.WholeTrace? then |items| else schedule.rows;
    hide Cut;
    var chunks: seq<Chunk<T>> := [];
    var nextStart, cursor := 0, 0;
    assert items[0..] == items;
    while true
      invariant nextStart == cursor <= |items|
      invariant chunks + Cut(items[cursor..], chunkLen, nextStart) == Cut(items, chunkLen, 0)
      decreases |items| - cursor
    {
      var taken := TakeItems(items, cursor, chunkLen);
      if taken == [] {
        break;
      }
      CutStep(items, cursor, chunkLen, chunks, taken);
      chunks := chunks + [Chunk(nextStart, taken)];
      nextStart := nextStart + |taken|;
      cursor := cursor + |taken|;
    }
    CutNothing(items, cursor, chunkLen, nextStart);
    r := Cutting(chunks);
  }

  lemma CutNothing<T>(items: seq<T>, cursor: nat, len: nat, start: nat)
    requires cursor == |items| && len > 0
    ensures Cut(items[cursor..], len, start) == []
  {}

  lemma CutStep<T>(items: seq<T>, cursor: nat, len: nat, chunks: seq<Chunk<T>>, taken: seq<T>)
    requires cursor <= |items| && len > 0 && taken != []
    requires taken == items[cursor..cursor + Min(len, |items| - cursor)]
    ensures chunks + Cut(items[cursor..], len, cursor)
         == chunks + [Chunk(cursor, taken)] + Cut(items[cursor + |taken|..], len, cursor + |taken|)
  {
    var rest := items[cursor..];
    assert taken == rest[..Min(len, |rest|)] && rest[|taken|..] == items[cursor + |taken|..];
  }

  /** Up to len items from the cursor on. */
  method TakeItems<T>(items: seq<T>, cursor: nat, len: nat) returns (taken: seq<T>)
    requires cursor <= |items|
    ensures taken == items[cursor..cursor + Min(len, |items| - cursor)]
  {
    taken := [];
    for i := 0 to len
      invariant taken == items[cursor..cursor + Min(i, |items| - cursor)]
    {
      if cursor + i >= |items| {
        return;
      }
      taken := taken + [items[cursor + i]];
    }
  }

  // ----- shapes -----

  /** Start index and length of each piece. */
  function Shapes<T>(chunks: seq<Chunk<T>>): (s: seq<(nat, nat)>)
    ensures |s| == |chunks|
  {
    seq(|chunks|, i requires 0 <= i < |chunks| => (chunks[i].start, |chunks[i].steps|))
  }

  /** The first n steps counted. */
  function Total(s: seq<(nat, nat)>, n: nat): nat
    requires n <= |s|
  {
    if n == 0 then 0 else Total(s, n - 1) + s[n - 1].1
  }

  /** Nonempty, contiguous pieces. */
  ghost predicate Contiguous(s: seq<(nat, nat)>, n: nat)
    requires n <= |s|
  {
    forall i :: 0 <= i < n ==> s[i].1 > 0 && s[i].0 == Total(s, i)
  }

  /** Pieces of exactly len steps, the last one possibly shorter. */
  ghost predicate FullBeforeLast(s: seq<(nat, nat)>, len: nat, n: nat)
    requires n <= |s|
  {
    forall i :: 0 <= i < n ==> s[i].1 <= len && (i + 1 != |s| ==> s[i].1 == len)
  }

  function CeilDiv(a: nat, b: nat): nat
    requires b > 0
  {
    (a + b - 1) / b
  }

  /** `chunk_count` of a valid schedule. */
  function ChunkCount(schedule: FoldSchedule, steps: nat): nat
    requires schedule.Valid()
  {
    if steps == 0 then 0 else if schedule.WholeTrace? then 1 else CeilDiv(steps, schedule.rows)
  }

  /** The shapes a schedule allows. */
  ghost predicate ShapeOk(schedule: FoldSchedule, s: seq<(nat, nat)>) {
    && schedule.Valid() && Contiguous(s, |s|)
    && if schedule.WholeTrace? then |s| <= 1 else FullBeforeLast(s, schedule.rows, |s|)
  }

  /** Steps in n full pieces. */
  function Span(n: nat, len: nat): nat { n * len }

  lemma SpanStep(n: nat, len: nat)
    ensures Span(0, len) == 0 && Span(n + 1, len) == Span(n, len) + len
  {}

  lemma {:induction false} SpanBound(s: seq<(nat, nat)>, len: nat, n: nat)
    requires n <= |s| && len > 0 && Contiguous(s, n) && FullBeforeLast(s, len, n)
    ensures n < |s| ==> Total(s, n) == Span(n, len)
    ensures n == |s| > 0 ==> Span(n - 1, len) < Total(s, n) <= Span(n, len)
    decreases n
  {
    hide Span;
    SpanStep(0, len);
    if n != 0 {
      SpanBound(s, len, n - 1);
      SpanStep(n - 1, len);
    }
  }

  /** The count check adds nothing to the piece-wise checks. */
  lemma CountFollows(schedule: FoldSchedule, s: seq<(nat, nat)>)
    requires ShapeOk(schedule, s)
    ensures ChunkCount(schedule, Total(s, |s|)) == |s|
  {
    if schedule.RowsPerChunk? && s != [] {
      SpanBound(s, schedule.rows, |s|);
      CeilOf(Total(s, |s|), |s|, schedule.rows);
    }
    if |s| == 1 {
      assert Total(s, 1) == Total(s, 0) + s[0].1;
    }
  }

  lemma CeilOf(total: nat, n: nat, len: nat)
    requires len > 0 && n > 0 && (n - 1) * len < total <= n * len
    ensures CeilDiv(total, len) == n
  {
    assert (n - 1) * len + len == n * len;
    QuotientIs(total + len - 1, len, n);
  }

  // ----- validators -----

  /** The conditions on piece i. */
  ghost predicate PieceOk(schedule: FoldSchedule, s: seq<(nat, nat)>, i: nat)
    requires i < |s|
  {
    && s[i].1 > 0 && s[i].0 == Total(s, i)
    && (schedule.RowsPerChunk? ==> s[i].1 <= schedule.rows && (i + 1 != |s| ==> s[i].1 == schedule.rows))
  }

  lemma PiecesGiveShape(schedule: FoldSchedule, s: seq<(nat, nat)>)
    requires schedule.Valid()
    ensures ShapeOk(schedule, s)
       <==> (forall i :: 0 <= i < |s| ==> PieceOk(schedule, s, i)) && (schedule.WholeTrace? ==> |s| <= 1)
  {
    if forall i :: 0 <= i < |s| ==> PieceOk(schedule, s, i) {
      forall i | 0 <= i < |s|
        ensures s[i].1 > 0 && s[i].0 == Total(s, i)
        ensures schedule.RowsPerChunk? ==> s[i].1 <= schedule.rows && (i + 1 != |s| ==> s[i].1 == schedule.rows)
      {
        assert PieceOk(schedule, s, i);
      }
    }
    if ShapeOk(schedule, s) {
      forall i | 0 <= i < |s|
        ensures PieceOk(schedule, s, i)
      {}
    }
  }

  /** What an error of the validators says about the layout: the first piece at fault, and how. */
  ghost predicate Explains(error: LayoutError, schedule: FoldSchedule, s: seq<(nat, nat)>) {
    match error
    case ZeroRows => schedule == RowsPerChunk(0)
    case EmptyChunk(i) => i < |s| && s[i].1 == 0
    case WrongStart(i) => i < |s| && s[i].1 > 0 && s[i].0 != Total(s, i)
    case TooManySteps(i) => i < |s| && schedule.RowsPerChunk? && s[i].1 > schedule.rows
    case ShortChunk(i) => i + 1 < |s| && schedule.RowsPerChunk? && s[i].1 < schedule.rows
    case SeveralChunks => schedule.WholeTrace? && |s| > 1
    case WrongCount => schedule.Valid() && |s| != ChunkCount(schedule, Total(s, |s|))
    case WrongTotal => false
    case Overflow(i) => i < |s| && Total(s, i) + s[i].1 > U64_MAX
  }

  datatype Check = Passed | Failed(error: LayoutError)

  predicate FaultAt(error: LayoutError, i: nat) {
    error == EmptyChunk(i) || error == WrongStart(i) || error == TooManySteps(i) || error == ShortChunk(i)
  }

  /** The checks on one chunk, in order. */
  method CheckChunk<T>(schedule: FoldSchedule, chunks: seq<Chunk<T>>, i: nat, nextStart: nat) returns (c: Check)
    requires i < |chunks| && nextStart == Total(Shapes(chunks), i)
    ensures c.Passed? <==> PieceOk(schedule, Shapes(chunks), i)
    ensures c.Failed? ==> Explains(c.error, schedule, Shapes(chunks)) && FaultAt(c.error, i)
  {
    ghost var s := Shapes(chunks);
    assert s[i] == (chunks[i].start, |chunks[i].steps|);
    if chunks[i].steps == [] {
      return Failed(EmptyChunk(i));
    }
    if chunks[i].start != nextStart {
      return Failed(WrongStart(i));
    }
    if schedule.RowsPerChunk? {
      if |chunks[i].steps| > schedule.rows {
        return Failed(TooManySteps(i));
      }
      if i + 1 != |chunks| && |chunks[i].steps| != schedule.rows {
        return Failed(ShortChunk(i));
      }
    }
    c := Passed;
  }

  lemma TotalStep<T>(chunks: seq<Chunk<T>>, i: nat)
    requires i < |chunks|
    ensures Total(Shapes(chunks), i + 1) == Total(Shapes(chunks), i) + |chunks[i].steps|
  {}

  /** `validate_chunk_layout`. */
  method ValidateChunkLayout<T>(schedule: FoldSchedule, chunks: seq<Chunk<T>>) returns (v: Verdict)
    ensures v.Accepted? <==> ShapeOk(schedule, Shapes(chunks))
    ensures v.Rejected? ==> Explains(v.error, schedule, Shapes(chunks)) && v.error != WrongCount
    ensures v.Rejected? ==> forall i: nat, k: nat :: FaultAt(v.error, i) && k < i < |chunks| ==>
      PieceOk(schedule, Shapes(chunks), k)
  {
    if schedule == RowsPerChunk(0) {
      return Rejected(ZeroRows);
    }
    ghost var s := Shapes(chunks);
    PiecesGiveShape(schedule, s);
    hide ShapeOk, PieceOk, ChunkCount, Total;
    var nextStart := 0;
    NothingCovered(s);
    for i := 0 to |chunks|
      invariant nextStart == Total(s, i)
      invariant forall k :: 0 <= k < i ==> PieceOk(schedule, s, k)
    {
      TotalStep(chunks, i);
      var c := CheckChunk(schedule, chunks, i, nextStart);
      if c.Failed? {
        return Rejected(c.error);
      }
      nextStart := nextStart + |chunks[i].steps|;
    }
    if schedule.WholeTrace? && |chunks| > 1 {
      return Rejected(SeveralChunks);
    }
    CountFollows(schedule, s);
    if ChunkCount(schedule, nextStart) != |chunks| {
      return Rejected(WrongCount);
    }
    v := Accepted;
  }

  const U64_MAX: nat := 0xFFFF_FFFF_FFFF_FFFF

  datatype Coverage = Terminal(index: nat) | Broken(error: LayoutError)

  /** `fixed_shape_chunk_coverage_terminal_index`. */
  method CoverageTerminalIndex(s: seq<(nat, nat)>) returns (r: Coverage)
    ensures r.Terminal? <==> Contiguous(s, |s|) && Total(s, |s|) <= U64_MAX
    ensures r.Terminal? ==> r.index == Total(s, |s|)
    ensures r.Broken? ==> Explains(r.error, WholeTrace, s) && !r.error.SeveralChunks? && !r.error.WrongCount?
  {
    var nextStart := 0;
    NothingCovered(s);
    hide Contiguous, Total;
    for i := 0 to |s|
      invariant nextStart == Total(s, i) <= U64_MAX && Contiguous(s, i)
    {
      CoverageStep(s, i);
      TotalsGrow(s, i + 1, |s|);
      if s[i].1 == 0 {
        return Broken(EmptyChunk(i));
      }
      if s[i].0 != nextStart {
        return Broken(WrongStart(i));
      }
      if nextStart + s[i].1 > U64_MAX {
        return Broken(Overflow(i));
      }
      nextStart := nextStart + s[i].1;
    }
    r := Terminal(nextStart);
  }

  lemma NothingCovered(s: seq<(nat, nat)>)
    ensures Total(s, 0) == 0 && Contiguous(s, 0)
  {}

  lemma CoverageStep(s: seq<(nat, nat)>, i: nat)
    requires i < |s| && Contiguous(s, i)
    ensures Total(s, i + 1) == Total(s, i) + s[i].1
    ensures if s[i].1 > 0 && s[i].0 == Total(s, i) then Contiguous(s, i + 1) else !Contiguous(s, |s|)
  {}

  lemma {:induction false} TotalsGrow(s: seq<(nat, nat)>, i: nat, n: nat)
    requires i <= n <= |s|
    ensures Total(s, i) <= Total(s, n)
    decreases n
  {
    if i < n {
      TotalsGrow(s, i, n - 1);
    }
  }

  /** `validate_fixed_shape_chunk_layout`: coverage, count, then the row limits. */
  method ValidateFixedShape(schedule: FoldSchedule, steps: nat, s: seq<(nat, nat)>) returns (v: Verdict)
    requires steps <= U64_MAX
    ensures v.Accepted? <==> ShapeOk(schedule, s) && Total(s, |s|) == steps
    ensures v.Rejected? ==> Explains(v.error, schedule, s) || (v.error == WrongTotal && Total(s, |s|) != steps)
  {
    if schedule == RowsPerChunk(0) {
      return Rejected(ZeroRows);
    }
    hide Contiguous, FullBeforeLast, Total, ChunkCount;
    var coverage := CoverageTerminalIndex(s);
    if coverage.Broken? {
      return Rejected(coverage.error);
    }
    if coverage.index != steps {
      return Rejected(WrongTotal);
    }
    if |s| != ChunkCount(schedule, steps) {
      if ShapeOk(schedule, s) {
        CountFollows(schedule, s);
      }
      return Rejected(WrongCount);
    }
    if schedule.WholeTrace? {
      if |s| > 1 {
        return Rejected(SeveralChunks);
      }
      return Accepted;
    }
    v := CheckRowLimits(schedule.rows, s);
  }

  /** No piece longer than the limit, and only the last one shorter. */
  method CheckRowLimits(rows: nat, s: seq<(nat, nat)>) returns (v: Verdict)
    ensures v.Accepted? <==> FullBeforeLast(s, rows, |s|)
    ensures v.Rejected? ==> Explains(v.error, RowsPerChunk(rows), s)
  {
    for i := 0 to |s|
      invariant FullBeforeLast(s, rows, i)
    {
      if s[i].1 > rows {
        return Rejected(TooManySteps(i));
      }
      if i + 1 != |s| && s[i].1 != rows {
        return Rejected(ShortChunk(i));
      }
    }
    v := Accepted;
  }

  // ----- the validators accept exactly the partitions -----

  lemma {:induction false} CutConcat<T>(items: seq<T>, len: nat, start: nat)
    requires len > 0
    ensures Concat(Cut(items, len, start)) == items
    decreases |items|
  {
    if items != [] {
      var n := Min(len, |items|);
      CutConcat(items[n..], len, start + n);
      var chunks := Cut(items, len, start);
      assert chunks[1..] == Cut(items[n..], len, start + n);
      assert items == items[..n] + items[n..];
    }
  }

  /** Shape conditions for pieces that begin at a given index. */
  ghost predicate PiecesFrom<T>(chunks: seq<Chunk<T>>, len: nat, start: nat) {
    chunks == [] ||
    (&& chunks[0].start == start && 0 < |chunks[0].steps| <= len
     && (|chunks| > 1 ==> |chunks[0].steps| == len)
     && PiecesFrom(chunks[1..], len, start + |chunks[0].steps|))
  }

  lemma {:induction false} PiecesAreCut<T>(chunks: seq<Chunk<T>>, len: nat, start: nat)
    requires len > 0
    ensures PiecesFrom(chunks, len, start) <==> chunks == Cut(Concat(chunks), len, start)
    decreases |chunks|
  {
    if chunks != [] {
      var first, rest := chunks[0], chunks[1..];
      PiecesAreCut(rest, len, start + |first.steps|);
      if PiecesFrom(chunks, len, start) {
        var items := Concat(chunks);
        var n := Min(len, |items|);
        if rest == [] {
          assert items == first.steps;
        }
        assert items[..n] == first.steps && items[n..] == Concat(rest);
        assert chunks == [first] + rest;
      }
      if chunks == Cut(Concat(chunks), len, start) {
        CutStarts(chunks, len, start);
      }
    }
  }

  /** The first piece of a cut list, and the cut of the others. */
  lemma CutStarts<T>(chunks: seq<Chunk<T>>, len: nat, start: nat)
    requires len > 0 && chunks != [] && chunks == Cut(Concat(chunks), len, start)
    ensures chunks[0].start == start && 0 < |chunks[0].steps| <= len
    ensures |chunks| > 1 ==> |chunks[0].steps| == len
    ensures chunks[1..] == Cut(Concat(chunks[1..]), len, start + |chunks[0].steps|)
  {
    var items := Concat(chunks);
    var n := Min(len, |items|);
    CutConcat(items[n..], len, start + n);
    assert items != [];
    assert chunks[0] == Chunk(start, items[..n]) && chunks[1..] == Cut(items[n..], len, start + n);
    if |chunks| > 1 {
      assert items[n..] != [];
    }
  }

  lemma ShiftShapes<T>(chunks: seq<Chunk<T>>, i: nat)
    requires chunks != [] && i < |chunks|
    ensures Total(Shapes(chunks), i + 1) == |chunks[0].steps| + Total(Shapes(chunks[1..]), i)
    decreases i
  {
    if i != 0 {
      ShiftShapes(chunks, i - 1);
      assert Shapes(chunks)[i] == Shapes(chunks[1..])[i - 1];
    } else {
      assert Total(Shapes(chunks), 1) == Total(Shapes(chunks), 0) + Shapes(chunks)[0].1;
    }
  }

  /** The conditions of the validators, from a given start. */
  ghost predicate ShapesFrom(s: seq<(nat, nat)>, len: nat, start: nat) {
    && (forall i :: 0 <= i < |s| ==> s[i].1 > 0 && s[i].0 == start + Total(s, i))
    && FullBeforeLast(s, len, |s|)
  }

  lemma {:induction false} PiecesShape<T>(chunks: seq<Chunk<T>>, len: nat, start: nat)
    ensures PiecesFrom(chunks, len, start) <==> ShapesFrom(Shapes(chunks), len, start)
    decreases |chunks|
  {
    if chunks != [] {
      var n := |chunks[0].steps|;
      PiecesShape(chunks[1..], len, start + n);
      forall i | 0 <= i < |chunks| - 1
        ensures Total(Shapes(chunks), i + 1) == n + Total(Shapes(chunks[1..]), i)
      {
        ShiftShapes(chunks, i);
      }
      assert Shapes(chunks)[1..] == Shapes(chunks[1..]);
      ShapesFromHead(Shapes(chunks), Shapes(chunks[1..]), len, start);
      hide ShapesFrom;
    }
  }

  /** Conditions on one piece of a layout that begins at start. */
  ghost predicate ShapeAt(s: seq<(nat, nat)>, len: nat, start: nat, i: nat)
    requires i < |s|
  {
    0 < s[i].1 <= len && (i + 1 != |s| ==> s[i].1 == len) && s[i].0 == start + Total(s, i)
  }

  lemma ShapesAt(s: seq<(nat, nat)>, len: nat, start: nat)
    ensures ShapesFrom(s, len, start) <==> forall i :: 0 <= i < |s| ==> ShapeAt(s, len, start, i)
  {
    if forall i :: 0 <= i < |s| ==> ShapeAt(s, len, start, i) {
      forall i | 0 <= i < |s|
        ensures s[i].1 > 0 && s[i].0 == start + Total(s, i)
        ensures s[i].1 <= len && (i + 1 != |s| ==> s[i].1 == len)
      {
        assert ShapeAt(s, len, start, i);
      }
    }
    if ShapesFrom(s, len, start) {
      forall i | 0 <= i < |s|
        ensures ShapeAt(s, len, start, i)
      {}
    }
  }

  lemma ShapesFromHead(s: seq<(nat, nat)>, t: seq<(nat, nat)>, len: nat, start: nat)
    requires s != [] && t == s[1..]
    requires forall i :: 0 <= i < |t| ==> Total(s, i + 1) == s[0].1 + Total(t, i)
    ensures ShapesFrom(s, len, start)
       <==> s[0].0 == start && 0 < s[0].1 <= len && (|s| > 1 ==> s[0].1 == len) && ShapesFrom(t, len, start + s[0].1)
  {
    var next := start + s[0].1;
    ShapesAt(s, len, start);
    ShapesAt(t, len, next);
    HeadShape(s, len, start);
    forall i | 1 <= i < |s|
      ensures ShapeAt(s, len, start, i) == ShapeAt(t, len, next, i - 1)
    {
      ShapeShift(s, t, len, start, i);
    }
    hide ShapesFrom, ShapeAt;
    if forall i :: 0 <= i < |s| ==> ShapeAt(s, len, start, i) {
      forall k | 0 <= k < |t|
        ensures ShapeAt(t, len, next, k)
      {
        assert ShapeAt(s, len, start, k + 1) == ShapeAt(t, len, next, k + 1 - 1);
      }
    }
  }

  lemma HeadShape(s: seq<(nat, nat)>, len: nat, start: nat)
    requires s != []
    ensures ShapeAt(s, len, start, 0) <==> s[0].0 == start && 0 < s[0].1 <= len && (|s| > 1 ==> s[0].1 == len)
  {}

  lemma ShapeShift(s: seq<(nat, nat)>, t: seq<(nat, nat)>, len: nat, start: nat, i: nat)
    requires s != [] && t == s[1..] && 1 <= i < |s|
    requires forall i :: 0 <= i < |t| ==> Total(s, i + 1) == s[0].1 + Total(t, i)
    ensures ShapeAt(s, len, start, i) == ShapeAt(t, len, start + s[0].1, i - 1)
  {
    hide Total;
    assert Total(s, i - 1 + 1) == s[0].1 + Total(t, i - 1);
  }

  lemma {:induction false} ConcatSize<T>(chunks: seq<Chunk<T>>)
    ensures |Concat(chunks)| == Total(Shapes(chunks), |chunks|)
  {
    if chunks != [] {
      ConcatSize(chunks[1..]);
      ShiftShapes(chunks, |chunks| - 1);
    }
  }

  /** `validate_chunk_layout` accepts exactly the partitions of the concatenated steps. */
  lemma ValidLayoutsArePartitions<T>(schedule: FoldSchedule, chunks: seq<Chunk<T>>)
    requires schedule.Valid()
    ensures ShapeOk(schedule, Shapes(chunks)) <==> chunks == Partition(schedule, Concat(chunks))
  {
    var s, items := Shapes(chunks), Concat(chunks);
    if schedule.RowsPerChunk? {
      PiecesShape(chunks, schedule.rows, 0);
      PiecesAreCut(chunks, schedule.rows, 0);
      assert ShapeOk(schedule, s) <==> ShapesFrom(s, schedule.rows, 0);
    } else if items != [] {
      PiecesShape(chunks, |items|, 0);
      PiecesAreCut(chunks, |items|, 0);
      ConcatSize(chunks);
      WholeTracePieces(chunks);
    } else {
      ConcatSize(chunks);
      if chunks != [] {
        TotalsGrow(s, 1, |s|);
        assert Total(s, 1) == Total(s, 0) + s[0].1;
      }
    }
  }

  lemma WholeTracePieces<T>(chunks: seq<Chunk<T>>)
    requires Concat(chunks) != []
    ensures ShapeOk(WholeTrace, Shapes(chunks)) <==> ShapesFrom(Shapes(chunks), |Concat(chunks)|, 0)
  {
    var s, n := Shapes(chunks), |Concat(chunks)|;
    ConcatSize(chunks);
    if |s| == 1 {
      assert Total(s, 1) == Total(s, 0) + s[0].1;
    }
    if |s| > 1 && ShapesFrom(s, n, 0) {
      assert s[0].1 == n && s[1].1 > 0;
      assert Total(s, 1) == Total(s, 0) + s[0].1;
      assert Total(s, 2) == Total(s, 1) + s[1].1;
      TotalsGrow(s, 2, |s|);
      assert false;
    }
  }

  /** Partitioning, then validating with either validator. */
  method PartitionThenValidate<T>(schedule: FoldSchedule, items: seq<T>) returns (a: Verdict, b: Verdict)
    requires schedule.Valid() && |items| <= U64_MAX
    ensures a.Accepted? && b.Accepted?
  {
    var cutting := PartitionItems(schedule, items);
    var chunks := cutting.chunks;
    if items != [] {
      CutConcat(items, if schedule.WholeTrace? then |items| else schedule.rows, 0);
    }
    ValidLayoutsArePartitions(schedule, chunks);
    ConcatSize(chunks);
    a := ValidateChunkLayout(schedule, chunks);
    b := ValidateFixedShape(schedule, |items|, Shapes(chunks));
  }
}
