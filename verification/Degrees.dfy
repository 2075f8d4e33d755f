/**
 Which claims the soundness of the sum check covers: every polynomial expression in the coordinates
 has the degree that its constants, sums and products add up to.
 */
module Degrees {
  import opened ExtField
  import opened KPolynomials
  import opened SumCheck

  datatype Expr =
    | Const(value: K)
    | Coord(index: nat)
    | Sum(left: Expr, right: Expr)
    | Prod(left: Expr, right: Expr)

  function Value(e: Expr, r: seq<K>): K {
    match e
    case Const(v) => v
    case Coord(i) => if i < |r| then r[i] else KZero
    case Sum(a, b) => KAdd(Value(a, r), Value(b, r))
    case Prod(a, b) => KMul(Value(a, r), Value(b, r))
  }

  /** The degree in any one coordinate. */
  function Degree(e: Expr): nat {
    match e
    case Const(_) => 0
    case Coord(_) => 1
    case Sum(a, b) => if Degree(a) < Degree(b) then Degree(b) else Degree(a)
    case Prod(a, b) => Degree(a) + Degree(b)
  }

  ghost function Oracle(e: Expr): seq<K> -> K { r => Value(e, r) }

  // ----- products of polynomials -----

  function PolyMul(a: KPoly, b: KPoly): (c: KPoly)
    requires a != [] && b != []
    ensures |c| == |a| + |b| - 1
  {
    if |a| == 1 then PolyScale(a[0], b)
    else PolyAdd(PolyScale(a[0], b) + KZeros(|a| - 1), [KZero] + PolyMul(a[1..], b))
  }

  lemma {:induction false} EvalMul(a: KPoly, b: KPoly, x: K)
    requires a != [] && b != []
    ensures Eval(PolyMul(a, b), x) == KMul(Eval(a, x), Eval(b, x))
  {
    hide KAdd, KMul;
    var y := Eval(b, x);
    EvalScale(a[0], b, x);
    if |a| == 1 {
      EvalOne(a, x);
    } else {
      var low, high := PolyScale(a[0], b) + KZeros(|a| - 1), PolyMul(a[1..], b);
      var s := Eval(a[1..], x);
      EvalAdd(low, [KZero] + high, x);
      EvalPad(PolyScale(a[0], b), |a| - 1, x);
      EvalMul(a[1..], b, x);
      assert ([KZero] + high)[1..] == high;
      KAddZero(KMul(x, KMul(s, y)));
      KMulAssoc(x, s, y);
      KMulComm(KAdd(a[0], KMul(x, s)), y);
      KMulAdd(y, a[0], KMul(x, s));
      KMulComm(y, a[0]);
      KMulComm(y, KMul(x, s));
    }
  }

  lemma EvalOne(a: KPoly, x: K)
    requires |a| == 1
    ensures Eval(a, x) == a[0]
  {
    KMulOne(x);
    KAddZero(a[0]);
  }

  // ----- one coordinate at a time -----

  /** The expression as a polynomial in the coordinate between prefix and suffix. */
  ghost function Line(e: Expr, prefix: seq<K>, suffix: seq<K>): (t: KPoly)
    ensures |t| == Degree(e) + 1
  {
    match e
    case Const(v) => [v]
    case Coord(i) => if i == |prefix| then [KZero, KOne] else [Value(e, prefix + [KZero] + suffix), KZero]
    case Sum(a, b) =>
      var (p, q) := (Line(a, prefix, suffix), Line(b, prefix, suffix));
      PolyAdd(p + KZeros(Degree(e) + 1 - |p|), q + KZeros(Degree(e) + 1 - |q|))
    case Prod(a, b) => PolyMul(Line(a, prefix, suffix), Line(b, prefix, suffix))
  }

  lemma {:induction false} LineIsValue(e: Expr, prefix: seq<K>, suffix: seq<K>, x: K)
    ensures Eval(Line(e, prefix, suffix), x) == Value(e, prefix + [x] + suffix)
  {
    match e
    case Const(v) =>
      EvalOne([v], x);
    case Coord(i) =>
      LineOfCoord(i, prefix, suffix, x);
    case Sum(a, b) =>
      var p, q := Line(a, prefix, suffix), Line(b, prefix, suffix);
      LineIsValue(a, prefix, suffix, x);
      LineIsValue(b, prefix, suffix, x);
      EvalPad(p, Degree(e) + 1 - |p|, x);
      EvalPad(q, Degree(e) + 1 - |q|, x);
      EvalAdd(p + KZeros(Degree(e) + 1 - |p|), q + KZeros(Degree(e) + 1 - |q|), x);
    case Prod(a, b) =>
      LineIsValue(a, prefix, suffix, x);
      LineIsValue(b, prefix, suffix, x);
      EvalMul(Line(a, prefix, suffix), Line(b, prefix, suffix), x);
  }

  lemma LineOfCoord(i: nat, prefix: seq<K>, suffix: seq<K>, x: K)
    ensures Eval(Line(Coord(i), prefix, suffix), x) == Value(Coord(i), prefix + [x] + suffix)
  {
    var t := Line(Coord(i), prefix, suffix);
    EvalOne(t[1..], x);
    KMulOne(x);
    KAddZero(x);
    KAddZero(t[0]);
    assert i != |prefix| ==> Value(Coord(i), prefix + [x] + suffix) == Value(Coord(i), prefix + [KZero] + suffix);
  }

  /** Every polynomial expression meets the hypothesis of the soundness theorem with its degree. */
  lemma ExpressionBounded(e: Expr, n: nat)
    ensures DegreeBounded(Oracle(e), n, Degree(e))
  {
    hide Eval, KAdd, KMul, Line, Value;
    forall prefix: seq<K>, suffix: seq<K> | |prefix| + 1 + |suffix| == n
      ensures exists t :: IsRoundPoly(t, Degree(e), Oracle(e), prefix, suffix, 0)
    {
      var t := Line(e, prefix, suffix);
      forall x
        ensures Eval(t, x) == SumCube(Oracle(e), prefix + [x], suffix, 0)
      {
        LineIsValue(e, prefix, suffix, x);
      }
      assert IsRoundPoly(t, Degree(e), Oracle(e), prefix, suffix, 0);
    }
  }

  /** Soundness for expressions, with the challenges that fool the verifier counted. */
  lemma ExpressionSoundness(hash: Hash, start: Running, e: Expr, rounds: seq<KPoly>)
    returns (i: nat, t: KPoly)
    requires Accepts(hash, start, Degree(e), rounds)
    requires Walk(hash, start, rounds).sum == Value(e, Challenges(hash, start, rounds))
    requires start.sum != SumCube(Oracle(e), [], [], |rounds|)
    ensures var r := Challenges(hash, start, rounds);
            && i < |rounds| == |r| && Eval(rounds[i], r[i]) == Eval(t, r[i])
            && forall x :: Eval(t, x) == SumCube(Oracle(e), r[..i] + [x], [], |r| - i - 1)
    ensures forall lucky: set<K> :: (forall x :: x in lucky ==> Eval(rounds[i], x) == Eval(t, x)) ==>
              |lucky| <= Degree(e)
  {
    hide Eval, Walk, KAdd, KMul, Value, SumCube, DegreeBounded;
    ExpressionBounded(e, |rounds|);
    i, t := Soundness(hash, start, Oracle(e), Degree(e), rounds);
    var r := Challenges(hash, start, rounds);
    forall lucky: set<K> | forall x :: x in lucky ==> Eval(rounds[i], x) == Eval(t, x)
      ensures |lucky| <= Degree(e)
    {
      FewLuckyChallenges(Oracle(e), Degree(e), rounds, r, i, t, lucky);
    }
  }
}
