/** Ajtai digit decompositions: digit rules, column-major and early-exit row-major forms. */
module Decomp {
  import opened Arithmetic
  import opened Field
  import opened Digits

  datatype Style = Balanced | NonNegative

  // ----- digit rules -----

  /** `balanced_digit_and_next`. */
  function BalancedStep(a: int, b: int): (int, int)
    requires b >= 2
  {
    var half := b / 2;
    var residue := a % b;
    var digit := if residue < half then residue
                 else if residue == half then if a < 0 then residue - b else residue
                 else residue - b;
    (digit, TruncDiv(a - digit, b))
  }

  function Step(style: Style, a: int, b: int): (int, int)
    requires b >= 2
  {
    if style.Balanced? then BalancedStep(a, b) else (a % b, a / b)
  }

  lemma ExactTruncDiv(q: int, b: int)
    requires b > 0
    ensures TruncDiv(q * b, b) == q
  {
    if q >= 0 {
      ExactDivision(q, b);
    } else {
      ExactDivision(-q, b);
      assert (-q) * b == -(q * b);
    }
  }

  /** Every step splits its value exactly. */
  lemma StepKeepsValue(style: Style, a: int, b: int)
    requires b >= 2
    ensures var (digit, next) := Step(style, a, b); a == digit + b * next
  {
    var q := a / b;
    EuclideanSplit(a, b);
    NextMultiples(q, b);
    ExactTruncDiv(q, b);
    ExactTruncDiv(q + 1, b);
    hide TruncDiv;
    Commute(q, b);
    Commute(q + 1, b);
  }

  lemma EuclideanSplit(a: int, b: int)
    requires b > 0
    ensures a - a % b == (a / b) * b
  {}

  lemma Commute(x: int, y: int)
    ensures x * y == y * x
  {}

  /** The two balanced rules agree except on negative values at the midpoint of an odd base. */
  lemma RulesAgreeExactly(a: int, b: int)
    requires b >= 2
    ensures BalancedStep(a, b) == BalancedDivRem(a, b) <==> !(b % 2 == 1 && a < 0 && a % b == b / 2)
  {
    StepKeepsValue(Balanced, a, b);
    BalancedStepHolds(a, b);
    var (digit, next) := BalancedStep(a, b);
    assert b * next == next * b;
    if IsBalancedStep(a, b, digit, next) {
      BalancedStepUnique(a, b, digit, next);
    }
    MidpointStep(a, b);
    hide BalancedDivRem, TruncDiv;
  }

  /** The digit is one of smallest size, ties to the sign, exactly off that midpoint. */
  lemma MidpointStep(a: int, b: int)
    requires b >= 2
    ensures BalancedStep(a, b).0 == a % b || BalancedStep(a, b).0 == a % b - b
    ensures var d := BalancedStep(a, b).0;
            2 * Abs(d) <= b && (2 * Abs(d) == b ==> (d > 0 <==> a > 0)) <==> !(b % 2 == 1 && a < 0 && a % b == b / 2)
  {
    if a == 0 {
      assert a % b == 0;
    }
  }

  /** For even bases the rules are the same; for odd ones the digit is at most one too large. */
  lemma EvenBasesAgree(a: int, b: int)
    requires b >= 2
    ensures b % 2 == 0 ==> BalancedStep(a, b) == BalancedDivRem(a, b)
    ensures Abs(BalancedStep(a, b).0) <= (b + 1) / 2
  {
    RulesAgreeExactly(a, b);
  }

  // ----- digits -----

  function RestAt(style: Style, a: int, b: int, i: nat): int
    requires b >= 2
  {
    if i == 0 then a else Step(style, RestAt(style, a, b, i - 1), b).1
  }

  function DigitAt(style: Style, a: int, b: int, i: nat): int
    requires b >= 2
  {
    Step(style, RestAt(style, a, b, i), b).0
  }

  /** Rust `as i32`. */
  function AsI32(x: int): int {
    var y := x % 0x1_0000_0000;
    if y < 0x8000_0000 then y else y - 0x1_0000_0000
  }

  /** -x as i32, which wraps for the least value, then `as u64` and reduced to the field. */
  function NegatedField(x: int): Fq
    requires -0x8000_0000 <= x < 0
  {
    var u := if x == -0x8000_0000 then 0x1_0000_0000_0000_0000 - 0x8000_0000 else -x;
    u % Q
  }

  /** How a signed digit becomes a field element. */
  function DigitField(digit: int): Fq {
    var x := AsI32(digit);
    if x >= 0 then x else Sub(0, NegatedField(x))
  }

  /** A digit becomes its own residue exactly if its size fits 31 bits. */
  lemma DigitFieldIsRed(digit: int)
    requires -0x1_0000_0000 < digit < 0x1_0000_0000
    ensures DigitField(digit) == Red(digit) <==> -0x8000_0000 < digit < 0x8000_0000
  {
    RedUnique(digit, if digit >= 0 then 0 else -1, if digit >= 0 then digit else digit + Q);
    AsI32Wraps(digit);
    NegatedFieldIs(AsI32(digit));
    hide AsI32, NegatedField, Red;
  }

  lemma AsI32Wraps(x: int)
    requires -0x1_0000_0000 < x < 0x1_0000_0000
    ensures AsI32(x) == if x < -0x8000_0000 then x + 0x1_0000_0000 else if x < 0x8000_0000 then x else x - 0x1_0000_0000
  {}

  lemma NegatedFieldIs(x: int)
    ensures -0x8000_0000 < x < 0 ==> NegatedField(x) == -x
    ensures x == -0x8000_0000 ==> NegatedField(x) == 0x7FFF_FFFF
  {}

  /** Entry i of the decomposition of one field element. */
  function DigitOf(style: Style, z: Fq, b: int, i: nat): Fq
    requires b >= 2
  {
    DigitField(DigitAt(style, Centered(z), b, i))
  }

  lemma {:induction false} ZeroStaysZero(style: Style, b: int, i: nat)
    requires b >= 2
    ensures RestAt(style, 0, b, i) == 0 && DigitAt(style, 0, b, i) == 0 && DigitField(0) == 0
  {
    if i != 0 {
      ZeroStaysZero(style, b, i - 1);
    }
  }

  lemma {:induction false} ZeroFrom(style: Style, a: int, b: int, i: nat, j: nat)
    requires b >= 2 && i <= j && RestAt(style, a, b, i) == 0
    ensures RestAt(style, a, b, j) == 0 && DigitAt(style, a, b, j) == 0
    decreases j
  {
    ZeroStaysZero(style, b, 0);
    ZeroStaysZero(style, b, 1);
    if j > i {
      ZeroFrom(style, a, b, i, j - 1);
    }
  }

  // ----- column-major -----

  /** The fast branch for b == 2: parity, sign and shift. */
  function BinaryStep(style: Style, a: int): (int, int) {
    if style.NonNegative? then (a % 2, a / 2)
    else
      var digit := if a % 2 == 0 then 0 else if a >= 0 then 1 else -1;
      (digit, (a - digit) / 2)
  }

  lemma BinaryStepAgrees(style: Style, a: int)
    ensures BinaryStep(style, a) == Step(style, a, 2)
  {}

  /** Element c of line r, in lines of the given length. */
  function Cell(out: seq<Fq>, r: nat, stride: nat, c: nat): Fq {
    if r * stride + c < |out| then out[r * stride + c] else 0
  }

  lemma CellAppend(out: seq<Fq>, line: seq<Fq>, n: nat, r: nat, c: nat)
    requires |out| == n * |line| && r <= n && c < |line|
    ensures |out + line| == (n + 1) * |line|
    ensures Cell(out + line, r, |line|, c) == if r < n then Cell(out, r, |line|, c) else line[c]
  {
    LineFits(r, n, |line|);
  }

  lemma LineFits(r: nat, n: nat, stride: nat)
    requires r <= n
    ensures (n + 1) * stride == n * stride + stride
    ensures r < n ==> r * stride + stride <= n * stride
  {
    if r < n {
      assert (n - r - 1) * stride >= 0;
    }
  }

  ghost predicate IsColumnMajor(out: seq<Fq>, z: seq<Fq>, b: int, d: nat, style: Style)
    requires b >= 2
  {
    |out| == |z| * d && forall j, i :: 0 <= j < |z| && 0 <= i < d ==> Cell(out, j, d, i) == DigitOf(style, z[j], b, i)
  }

  /** The digits of one entry. */
  method DecompEntry(z: Fq, b: int, d: nat, style: Style) returns (digits: seq<Fq>)
    requires 2 <= b < 0x1_0000_0000
    ensures |digits| == d && forall i :: 0 <= i < d ==> digits[i] == DigitOf(style, z, b, i)
  {
    hide BalancedStep, DigitField;
    digits := [];
    var a := Centered(z);
    for i := 0 to d
      invariant |digits| == i && a == RestAt(style, Centered(z), b, i)
      invariant forall k :: 0 <= k < i ==> digits[k] == DigitOf(style, z, b, k)
    {
      BinaryStepAgrees(style, a);
      var (digit, next) := if b == 2 then BinaryStep(style, a) else Step(style, a, b);
      digits := digits + [DigitField(digit)];
      a := next;
    }
  }

  /** `decomp_b`. */
  method DecompB(z: seq<Fq>, b: int, d: nat, style: Style) returns (out: seq<Fq>)
    requires 2 <= b < 0x1_0000_0000
    ensures IsColumnMajor(out, z, b, d, style)
  {
    out := [];
    for j := 0 to |z|
      invariant IsColumnMajor(out, z[..j], b, d, style)
    {
      var digits := DecompEntry(z[j], b, d, style);
      AppendColumn(out, digits, z, j, b, d, style);
      out := out + digits;
    }
    assert z[..|z|] == z;
  }

  lemma AppendColumn(out: seq<Fq>, digits: seq<Fq>, z: seq<Fq>, j: nat, b: int, d: nat, style: Style)
    requires b >= 2 && j < |z| && IsColumnMajor(out, z[..j], b, d, style)
    requires |digits| == d && forall i :: 0 <= i < d ==> digits[i] == DigitOf(style, z[j], b, i)
    ensures IsColumnMajor(out + digits, z[..j + 1], b, d, style)
  {
    hide DigitOf, Cell;
    forall k, i | 0 <= k < j + 1 && 0 <= i < d
      ensures Cell(out + digits, k, d, i) == DigitOf(style, z[k], b, i)
    {
      CellAppend(out, digits, j, k, i);
      if k < j {
        assert Cell(out, k, d, i) == DigitOf(style, z[..j][k], b, i);
      }
    }
    LineFits(0, j, d);
  }

  // ----- row-major with early exit -----

  datatype RowMajor = Done(out: seq<Fq>) | Unreachable

  /** The digit that the b == 3 balanced branch has no arm for. */
  ghost predicate NoArm(b: int, style: Style, digit: int) {
    b == 3 && style.Balanced? && !(-1 <= digit <= 1)
  }

  /** Some digit of the first rows has no arm. */
  ghost predicate Panics(z: seq<Fq>, b: int, rows: nat, style: Style)
    requires b >= 2
  {
    exists i, j :: 0 <= i < rows && 0 <= j < |z| && NoArm(b, style, DigitAt(style, Centered(z[j]), b, i))
  }

  /** Some negative entry has the ternary digit 2 among the first rows of its absolute value. */
  ghost predicate HasNegativeTwo(z: seq<Fq>, rows: nat) {
    exists i, j :: 0 <= i < rows && 0 <= j < |z| && NegativeTwo(Centered(z[j]), i)
  }

  ghost predicate NegativeTwo(a: int, i: nat) {
    a < 0 && (Abs(a) / PowPos(3, i)) % 3 == 2
  }

  function PowPos(b: int, i: nat): (p: int)
    requires b >= 1
    ensures p >= 1
  {
    PowPositive(b, i);
    Pow(b, i)
  }

  /** Base 3 keeps the sign of what is left; negative values shed the ternary digits of their size. */
  lemma {:induction false} TernaryRest(a: int, i: nat)
    ensures a >= 0 ==> RestAt(Balanced, a, 3, i) >= 0
    ensures a < 0 ==> RestAt(Balanced, a, 3, i) == -(Abs(a) / PowPos(3, i))
  {
    if i != 0 {
      TernaryRest(a, i - 1);
      TernaryStep(RestAt(Balanced, a, 3, i - 1));
      NestedQuotient(Abs(a), PowPos(3, i - 1), 3);
    }
  }

  lemma TernaryStep(a: int)
    ensures a >= 0 ==> BalancedStep(a, 3).1 >= 0 && -1 <= BalancedStep(a, 3).0 <= 1
    ensures a <= 0 ==> BalancedStep(a, 3) == (-((-a) % 3), -((-a) / 3))
  {
    StepKeepsValue(Balanced, a, 3);
  }

  lemma NestedQuotient(x: nat, p: int, b: int)
    requires p >= 1 && b >= 1
    ensures b * p >= 1 && (x / p) / b == x / (b * p)
  {
    MulOrder(1, p, b);
    var q := x / p;
    var n := q / b;
    QuotientBounds(x, p);
    QuotientBounds(q, b);
    NestedBounds(x, p, b, q, n);
    QuotientIs(x, b * p, n);
  }

  lemma NestedBounds(x: int, p: int, b: int, q: int, n: int)
    requires p >= 1 && q * p <= x < q * p + p && n * b <= q < n * b + b
    ensures n * (b * p) <= x < n * (b * p) + b * p
  {
    MulOrder(n * b, q, p);
    MulOrder(q, n * b + b - 1, p);
    assert n * b * p == n * (b * p);
    assert (n * b + b - 1) * p == n * b * p + b * p - p;
  }

  /** The arm is missing exactly for negative entries whose ternary digit there is 2. */
  lemma NoArmExactly(a: int, i: nat)
    ensures NoArm(3, Balanced, DigitAt(Balanced, a, 3, i)) <==> NegativeTwo(a, i)
  {
    TernaryRest(a, i);
    TernaryStep(RestAt(Balanced, a, 3, i));
    hide BalancedStep;
  }

  /** What a caller can check before the call. */
  lemma PanicsExactly(z: seq<Fq>, b: int, rows: nat, style: Style)
    requires b >= 2
    ensures Panics(z, b, rows, style) <==> b == 3 && style.Balanced? && HasNegativeTwo(z, rows)
  {
    hide NegativeTwo, DigitAt;
    if b == 3 && style.Balanced? {
      forall i: nat, j: nat | i < rows && j < |z|
        ensures NoArm(3, Balanced, DigitAt(Balanced, Centered(z[j]), 3, i)) <==> NegativeTwo(Centered(z[j]), i)
      {
        NoArmExactly(Centered(z[j]), i);
      }
    }
  }

  ghost predicate IsRowMajor(out: seq<Fq>, z: seq<Fq>, b: int, rows: nat, style: Style)
    requires b >= 2
  {
    && |out| == rows * |z|
    && forall i, j :: 0 <= i < rows && 0 <= j < |z| ==> Cell(out, i, |z|, j) == DigitOf(style, z[j], b, i)
  }

  datatype RowStep = RowDone(row: seq<Fq>, next: seq<int>, anyNonzero: bool) | RowUnreachable

  /** One row of digits, with what is left of every entry. */
  method DigitRow(z: seq<Fq>, aVals: seq<int>, b: int, i: nat, style: Style) returns (r: RowStep)
    requires 2 <= b < 0x1_0000_0000 && |aVals| == |z|
    requires forall j :: 0 <= j < |z| ==> aVals[j] == RestAt(style, Centered(z[j]), b, i)
    ensures r.RowUnreachable? ==> exists j :: 0 <= j < |z| && NoArm(b, style, DigitAt(style, Centered(z[j]), b, i))
    ensures r.RowDone? ==> forall j :: 0 <= j < |z| ==> !NoArm(b, style, DigitAt(style, Centered(z[j]), b, i))
    ensures r.RowDone? ==> |r.row| == |r.next| == |z|
    ensures r.RowDone? ==> forall j :: 0 <= j < |z| ==> r.row[j] == DigitOf(style, z[j], b, i)
    ensures r.RowDone? ==> forall j :: 0 <= j < |z| ==> r.next[j] == RestAt(style, Centered(z[j]), b, i + 1)
    ensures r.RowDone? ==> (r.anyNonzero <==> exists j :: 0 <= j < |z| && r.next[j] != 0)
  {
    hide BalancedStep, DigitField, Centered;
    var row: seq<Fq>, next: seq<int>, any := [], [], false;
    for j := 0 to |z|
      invariant |row| == |next| == j
      invariant forall k :: 0 <= k < j ==> row[k] == DigitOf(style, z[k], b, i)
      invariant forall k :: 0 <= k < j ==> next[k] == RestAt(style, Centered(z[k]), b, i + 1)
      invariant forall k :: 0 <= k < j ==> !NoArm(b, style, DigitAt(style, Centered(z[k]), b, i))
      invariant any <==> exists k :: 0 <= k < j && next[k] != 0
    {
      var a := aVals[j];
      if a == 0 {
        ZeroStaysZero(style, b, 0);
        ZeroStaysZero(style, b, 1);
        row, next := row + [0], next + [0];
        continue;
      }
      BinaryStepAgrees(style, a);
      var (digit, rest) := if b == 2 then BinaryStep(style, a) else Step(style, a, b);
      if b == 3 && style == Balanced && !(-1 <= digit <= 1) {
        assert NoArm(b, style, DigitAt(style, Centered(z[j]), b, i));
        return RowUnreachable;
      }
      ghost var before := next;
      row, next := row + [DigitField(digit)], next + [rest];
      any := any || rest != 0;
      assert forall k :: 0 <= k < j ==> before[k] == next[k];
    }
    r := RowDone(row, next, any);
  }

  /** `decomp_b_row_major_into`: the same digits row by row, stopping once nothing is left. */
  method DecompRowMajor(z: seq<Fq>, b: int, d: nat, style: Style) returns (r: RowMajor)
    requires 2 <= b < 0x1_0000_0000
    ensures r.Unreachable? <==> b == 3 && style.Balanced? && HasNegativeTwo(z, d)
    ensures r.Done? ==> IsRowMajor(r.out, z, b, d, style)
  {
    PanicsExactly(z, b, d, style);
    hide DigitOf, DigitAt, NoArm, HasNegativeTwo;
    var m := |z|;
    var out: seq<Fq> := [];
    var aVals := seq(m, j requires 0 <= j < m => Centered(z[j]));
    for i := 0 to d
      invariant |aVals| == m && forall j :: 0 <= j < m ==> aVals[j] == RestAt(style, Centered(z[j]), b, i)
      invariant IsRowMajor(out, z, b, i, style) && !Panics(z, b, i, style)
    {
      var step := DigitRow(z, aVals, b, i, style);
      if step.RowUnreachable? {
        return Unreachable;
      }
      AppendRow(out, step.row, z, b, i, style);
      RowSafe(z, b, i, style);
      out := out + step.row;
      aVals := step.next;
      if !step.anyNonzero {
        RemainingZero(out, z, aVals, b, i + 1, d, style);
        return Done(out + seq((d - i - 1) * m, k => 0));
      }
    }
    r := Done(out);
  }

  lemma RowSafe(z: seq<Fq>, b: int, i: nat, style: Style)
    requires b >= 2 && !Panics(z, b, i, style)
    requires forall j :: 0 <= j < |z| ==> !NoArm(b, style, DigitAt(style, Centered(z[j]), b, i))
    ensures !Panics(z, b, i + 1, style)
  {}

  lemma AppendRow(out: seq<Fq>, row: seq<Fq>, z: seq<Fq>, b: int, i: nat, style: Style)
    requires b >= 2 && IsRowMajor(out, z, b, i, style)
    requires |row| == |z| && forall j :: 0 <= j < |z| ==> row[j] == DigitOf(style, z[j], b, i)
    ensures IsRowMajor(out + row, z, b, i + 1, style)
  {
    hide DigitOf, Cell;
    forall k, j | 0 <= k < i + 1 && 0 <= j < |z|
      ensures Cell(out + row, k, |z|, j) == DigitOf(style, z[j], b, k)
    {
      CellAppend(out, row, i, k, j);
    }
    LineFits(0, i, |z|);
  }

  /** Once every entry is used up, the missing rows are zero and reach no missing arm. */
  lemma {:induction false} RemainingZero(out: seq<Fq>, z: seq<Fq>, aVals: seq<int>, b: int, i: nat, d: nat, style: Style)
    requires b >= 2 && i <= d && IsRowMajor(out, z, b, i, style) && !Panics(z, b, i, style)
    requires |aVals| == |z| && forall j :: 0 <= j < |z| ==> aVals[j] == 0 == RestAt(style, Centered(z[j]), b, i)
    ensures (d - i) * |z| >= 0
    ensures IsRowMajor(out + seq((d - i) * |z|, k => 0), z, b, d, style) && !Panics(z, b, d, style)
    decreases d - i
  {
    var m := |z|;
    if i == d {
      assert (d - i) * m == 0;
      assert out + seq(0, k => 0) == out;
    } else {
      var row: seq<Fq> := seq(m, k => 0);
      forall j | 0 <= j < m
        ensures DigitAt(style, Centered(z[j]), b, i) == 0 && RestAt(style, Centered(z[j]), b, i + 1) == 0
        ensures DigitOf(style, z[j], b, i) == 0
      {
        ZeroFrom(style, Centered(z[j]), b, i, i);
        ZeroFrom(style, Centered(z[j]), b, i, i + 1);
        ZeroStaysZero(style, b, 0);
      }
      hide RestAt, DigitAt, DigitOf, IsRowMajor, Centered;
      AppendRow(out, row, z, b, i, style);
      RowSafe(z, b, i, style);
      RemainingZero(out + row, z, aVals, b, i + 1, d, style);
      assert (d - i) * m == m + (d - i - 1) * m;
      assert out + seq((d - i) * m, k => 0) == out + row + seq((d - i - 1) * m, k => 0);
    }
  }

  /** The two layouts hold the same digits, transposed. */
  lemma SameUpToTranspose(cm: seq<Fq>, rm: seq<Fq>, z: seq<Fq>, b: int, d: nat, style: Style, i: nat, j: nat)
    requires b >= 2 && IsColumnMajor(cm, z, b, d, style) && IsRowMajor(rm, z, b, d, style) && i < d && j < |z|
    ensures Cell(cm, j, d, i) == Cell(rm, i, |z|, j)
  {
    hide DigitOf, Cell;
  }

  /** One step reaches the missing arm on negative values that are 1 modulo 3, first of all on -2. */
  lemma MissingArm(a: int)
    ensures NoArm(3, Balanced, BalancedStep(a, 3).0) <==> a < 0 && a % 3 == 1
    ensures BalancedStep(-2, 3) == (-2, 0) && BalancedDivRem(-2, 3) == (1, -1)
  {
    BalancedStepUnique(-2, 3, 1, -1);
  }

  /** The whole loop: -2 panics in the first row, -6 in the second one, -4 and 5 in none. */
  lemma PanicWitnesses(rows: nat)
    ensures Panics([Red(-2)], 3, rows, Balanced) <==> rows >= 1
    ensures Panics([Red(-6)], 3, rows, Balanced) <==> rows >= 2
    ensures !Panics([Red(-4)], 3, rows, Balanced) && !Panics([Red(5)], 3, rows, Balanced)
  {
    hide NegativeTwo, Panics;
    OneEntry(-2, rows);
    OneEntry(-6, rows);
    OneEntry(-4, rows);
    OneEntry(5, rows);
    SmallNegatives(0);
    SmallNegatives(1);
    forall i: nat
      ensures NegativeTwo(-2, i) ==> i == 0
      ensures NegativeTwo(-6, i) ==> i == 1
      ensures !NegativeTwo(-4, i) && !NegativeTwo(5, i)
    {
      SmallNegatives(i);
    }
  }

  lemma OneEntry(a: int, rows: nat)
    requires Abs(a) <= HALF_Q
    ensures Panics([Red(a)], 3, rows, Balanced) <==> exists i :: 0 <= i < rows && NegativeTwo(a, i)
  {
    hide NegativeTwo, Panics;
    CenteredOfSmall(a);
    PanicsExactly([Red(a)], 3, rows, Balanced);
    if i :| 0 <= i < rows && NegativeTwo(a, i) {
      assert NegativeTwo(Centered([Red(a)][0]), i);
    }
  }

  lemma SmallNegatives(i: nat)
    ensures NegativeTwo(-2, i) <==> i == 0
    ensures NegativeTwo(-6, i) <==> i == 1
    ensures !NegativeTwo(-4, i) && !NegativeTwo(5, i)
  {
    assert Pow(3, 0) == 1 && Pow(3, 1) == 3;
    if i >= 2 {
      assert Pow(3, i) == 3 * Pow(3, i - 1) && Pow(3, i - 1) == 3 * Pow(3, i - 2);
      PowPositive(3, i - 2);
      QuotientIs(2, Pow(3, i), 0);
      QuotientIs(4, Pow(3, i), 0);
      QuotientIs(6, Pow(3, i), 0);
    }
  }

  // ----- split_b -----

  /** `split_b` on one entry: the same digits as the DEC split for the balanced style. */
  method SplitEntry(z: Fq, b: int, k: nat, style: Style) returns (digits: seq<Fq>)
    requires 2 <= b < 0x1_0000_0000
    ensures |digits| == k
    ensures style.Balanced? ==> forall i :: 0 <= i < k ==> digits[i] == DigitField(Digit(Centered(z), b, i))
    ensures style.NonNegative? ==> forall i :: 0 <= i < k ==> digits[i] == DigitOf(NonNegative, z, b, i)
  {
    hide BalancedDivRem, BalancedStep, DigitField;
    digits := [];
    var a := Centered(z);
    for i := 0 to k
      invariant |digits| == i
      invariant style.Balanced? ==> a == Rest(Centered(z), b, i)
      invariant style.Balanced? ==> forall n :: 0 <= n < i ==> digits[n] == DigitField(Digit(Centered(z), b, n))
      invariant style.NonNegative? ==> a == RestAt(NonNegative, Centered(z), b, i)
      invariant style.NonNegative? ==> forall n :: 0 <= n < i ==> digits[n] == DigitOf(NonNegative, z, b, n)
    {
      if style == Balanced {
        DigitOfRest(Centered(z), b, i, 0);
        DigitOfRest(Centered(z), b, i, 1);
        SplitRemainder(a, b);
        var r := ShiftedRemainder(a, b);
        digits := digits + [DigitField(r)];
        a := TruncDiv(a - r, b);
      } else {
        digits := digits + [DigitField(a % b)];
        a := a / b;
      }
    }
  }

  /** The remainder moved into the balanced range by two separate tests. */
  function ShiftedRemainder(a: int, b: int): int
    requires b >= 2
  {
    var half := b / 2;
    var r := TruncRem(a, b);
    var r1 := if r > half then r - b else r;
    if r1 < -half then r1 + b else r1
  }

  lemma SplitRemainder(a: int, b: int)
    requires b >= 2
    ensures (ShiftedRemainder(a, b), TruncDiv(a - ShiftedRemainder(a, b), b)) == BalancedDivRem(a, b)
  {
    var (r, q) := BalancedDivRem(a, b);
    BalancedStepHolds(a, b);
    ShiftedIsDigit(a, b);
    assert a - r == q * b;
    ExactTruncDiv(q, b);
  }

  lemma ShiftedIsDigit(a: int, b: int)
    requires b >= 2
    ensures ShiftedRemainder(a, b) == BalancedDivRem(a, b).0
  {
    TruncSplit(a, b);
  }

  /** With digits that fit 32 bits, `split_b` and the DEC split give equal digits. */
  lemma SplitsAgree(z: Fq, b: int, i: nat)
    requires 2 <= b <= 0xFFFF_FFFF
    ensures DigitField(Digit(Centered(z), b, i)) == Red(Digit(Centered(z), b, i))
  {
    DigitsBounded(Centered(z), b, i);
    DigitFieldIsRed(Digit(Centered(z), b, i));
  }

  /** For even bases `decomp_b` and `split_b` give the same digits too. */
  lemma {:induction false} EvenDigitsAgree(a: int, b: int, i: nat)
    requires b >= 2 && b % 2 == 0
    ensures RestAt(Balanced, a, b, i) == Rest(a, b, i) && DigitAt(Balanced, a, b, i) == Digit(a, b, i)
  {
    hide BalancedStep, BalancedDivRem;
    DigitOfRest(a, b, i, 0);
    if i != 0 {
      EvenDigitsAgree(a, b, i - 1);
      DigitOfRest(a, b, i - 1, 1);
      EvenBasesAgree(Rest(a, b, i - 1), b);
    }
    EvenBasesAgree(Rest(a, b, i), b);
  }

  // ----- recomposition -----

  function PowerSum(style: Style, a: int, b: int, k: nat): int
    requires b >= 2
  {
    if k == 0 then 0 else PowerSum(style, a, b, k - 1) + Pow(b, k - 1) * DigitAt(style, a, b, k - 1)
  }

  /** The digits and the rest always recompose to the value, for both styles and every base. */
  lemma {:induction false} Recomposes(style: Style, a: int, b: int, k: nat)
    requires b >= 2
    ensures a == PowerSum(style, a, b, k) + Pow(b, k) * RestAt(style, a, b, k)
  {
    hide Step;
    if k != 0 {
      Recomposes(style, a, b, k - 1);
      var rest := RestAt(style, a, b, k - 1);
      StepKeepsValue(style, rest, b);
      Distribute(Pow(b, k - 1), Step(style, rest, b).0, b, Step(style, rest, b).1);
    }
  }

  lemma Distribute(p: int, digit: int, b: int, next: int)
    ensures p * (digit + b * next) == p * digit + (b * p) * next
  {
    assert p * (b * next) == (b * p) * next;
  }
}
