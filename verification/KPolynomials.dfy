/** Univariate polynomials over K: Horner evaluation, root counting and Lagrange interpolation. */
module KPolynomials {
  import opened Field
  import opened ExtField

  /** Coefficients, low to high. */
  type KPoly = seq<K>

  function Eval(c: KPoly, x: K): K {
    if c == [] then KZero else KAdd(c[0], KMul(x, Eval(c[1..], x)))
  }

  function KZeros(n: nat): (c: KPoly)
    ensures |c| == n
  {
    seq(n, i => KZero)
  }

  function PolyAdd(a: KPoly, b: KPoly): (c: KPoly)
    requires |a| == |b|
    ensures |c| == |a|
  {
    seq(|a|, i requires 0 <= i < |a| => KAdd(a[i], b[i]))
  }

  function PolySub(a: KPoly, b: KPoly): (c: KPoly)
    requires |a| == |b|
    ensures |c| == |a|
  {
    seq(|a|, i requires 0 <= i < |a| => KSub(a[i], b[i]))
  }

  function PolyScale(s: K, a: KPoly): (c: KPoly)
    ensures |c| == |a|
  {
    seq(|a|, i requires 0 <= i < |a| => KMul(s, a[i]))
  }

  /** `poly_eval_k`: Horner's method from the top coefficient. */
  method PolyEvalK(coeffs: KPoly, x: K) returns (r: K)
    ensures r == Eval(coeffs, x)
  {
    if coeffs == [] {
      return KZero;
    }
    var n := |coeffs|;
    r := coeffs[n - 1];
    KAddZero(r);
    KMulOne(x);
    hide KMul, KAdd;
    assert coeffs[n - 1..] == [coeffs[n - 1]];
    for i := n - 1 downto 0
      invariant r == Eval(coeffs[i..], x)
    {
      KMulComm(r, x);
      KAddComm(KMul(x, r), coeffs[i]);
      assert coeffs[i..][1..] == coeffs[i + 1..];
      r := KAdd(KMul(r, x), coeffs[i]);
    }
    assert coeffs[0..] == coeffs;
  }

  // ----- linearity -----

  lemma {:induction false} EvalAdd(a: KPoly, b: KPoly, x: K)
    requires |a| == |b|
    ensures Eval(PolyAdd(a, b), x) == KAdd(Eval(a, x), Eval(b, x))
  {
    if a == [] {
      KAddZero(KZero);
    } else {
      assert PolyAdd(a, b)[1..] == PolyAdd(a[1..], b[1..]);
      EvalAdd(a[1..], b[1..], x);
      var p, q := Eval(a[1..], x), Eval(b[1..], x);
      KMulAdd(x, p, q);
      KAddSwap(a[0], b[0], KMul(x, p), KMul(x, q));
    }
    hide KMul, KAdd;
  }

  lemma {:induction false} EvalScale(s: K, a: KPoly, x: K)
    ensures Eval(PolyScale(s, a), x) == KMul(s, Eval(a, x))
  {
    if a == [] {
      KMulOne(s);
    } else {
      assert PolyScale(s, a)[1..] == PolyScale(s, a[1..]);
      EvalScale(s, a[1..], x);
      var p := Eval(a[1..], x);
      KMulAdd(s, a[0], KMul(x, p));
      KMulAssoc(x, s, p);
      KMulAssoc(s, x, p);
      KMulComm(x, s);
    }
    hide KMul, KAdd;
  }

  lemma {:induction false} EvalSub(a: KPoly, b: KPoly, x: K)
    requires |a| == |b|
    ensures Eval(PolySub(a, b), x) == KSub(Eval(a, x), Eval(b, x))
  {
    forall i | 0 <= i < |a|
      ensures KAdd(KSub(a[i], b[i]), b[i]) == a[i]
    {
      KSubAdd(a[i], b[i]);
    }
    assert PolyAdd(PolySub(a, b), b) == a;
    EvalAdd(PolySub(a, b), b, x);
    AddThenSub(Eval(PolySub(a, b), x), Eval(b, x));
    hide KMul, KAdd;
  }

  lemma {:induction false} EvalZeros(n: nat, x: K)
    ensures Eval(KZeros(n), x) == KZero
  {
    if n != 0 {
      assert KZeros(n)[1..] == KZeros(n - 1);
      EvalZeros(n - 1, x);
      KMulOne(x);
      KAddZero(KZero);
    }
  }

  lemma {:induction false} EvalPad(a: KPoly, n: nat, x: K)
    ensures Eval(a + KZeros(n), x) == Eval(a, x)
  {
    if a == [] {
      assert a + KZeros(n) == KZeros(n);
      EvalZeros(n, x);
    } else {
      assert (a + KZeros(n))[1..] == a[1..] + KZeros(n);
      EvalPad(a[1..], n, x);
    }
  }

  // ----- a nonzero polynomial has fewer roots than coefficients -----

  /** Synthetic division by X - r. */
  function Quot(c: KPoly, r: K): (q: KPoly)
    ensures |q| == if |c| == 0 then 0 else |c| - 1
  {
    if |c| <= 1 then [] else [Eval(c[1..], r)] + Quot(c[1..], r)
  }

  lemma {:induction false} FactorTheorem(c: KPoly, r: K, x: K)
    ensures Eval(c, x) == KAdd(Eval(c, r), KMul(KSub(x, r), Eval(Quot(c, r), x)))
  {
    var d := KSub(x, r);
    KMulOne(d);
    KMulOne(x);
    KMulOne(r);
    if |c| <= 1 {
      KAddZero(Eval(c, r));
      assert |c| == 1 ==> c[1..] == [];
    } else {
      var t := c[1..];
      FactorTheorem(t, r, x);
      FactorStep(c[0], x, r, Eval(t, r), Eval(Quot(t, r), x));
      assert Quot(c, r)[1..] == Quot(t, r);
    }
    hide KMul, KAdd, KSub;
  }

  /** c + x (e + d f) == (c + r e) + d (e + x f) for d == x - r. */
  lemma FactorStep(c: K, x: K, r: K, e: K, f: K)
    ensures var d := KSub(x, r);
            KAdd(c, KMul(x, KAdd(e, KMul(d, f)))) == KAdd(KAdd(c, KMul(r, e)), KMul(d, KAdd(e, KMul(x, f))))
  {
    hide KMul;
    var d := KSub(x, r);
    KMulAdd(x, e, KMul(d, f));
    KMulAdd(d, e, KMul(x, f));
    KMulSub(e, x, r);
    KMulAssoc(x, d, f);
    KMulAssoc(d, x, f);
    KMulComm(x, d);
    FactorSum(c, KMul(x, e), KMul(r, e), KMul(x, KMul(d, f)));
  }

  lemma FactorSum(c: K, xe: K, re: K, w: K)
    ensures KAdd(c, KAdd(xe, w)) == KAdd(KAdd(c, re), KAdd(KSub(xe, re), w))
  {}

  ghost predicate IsZeroPoly(c: KPoly) {
    forall i :: 0 <= i < |c| ==> c[i] == KZero
  }

  lemma {:induction false} QuotOfNonzero(c: KPoly, r: K)
    requires Eval(c, r) == KZero && IsZeroPoly(Quot(c, r))
    ensures IsZeroPoly(c)
  {
    if c != [] {
      var t := c[1..];
      if t != [] {
        assert Quot(c, r)[0] == Eval(t, r);
        assert Quot(c, r)[1..] == Quot(t, r);
        assert forall i :: 0 <= i < |Quot(t, r)| ==> Quot(t, r)[i] == Quot(c, r)[i + 1];
        QuotOfNonzero(t, r);
      }
      KMulOne(r);
      KAddZero(c[0]);
      assert c[0] == KZero;
      assert forall i :: 1 <= i < |c| ==> c[i] == t[i - 1];
    }
    hide KMul;
  }

  /** At most |c| - 1 roots. */
  lemma {:induction false} RootBound(c: KPoly, roots: set<K>)
    requires !IsZeroPoly(c)
    requires forall x :: x in roots ==> Eval(c, x) == KZero
    ensures |roots| < |c|
    decreases |c|
  {
    if roots != {} {
      var r :| r in roots;
      var q, rest := Quot(c, r), roots - {r};
      if IsZeroPoly(q) {
        QuotOfNonzero(c, r);
      }
      forall x | x in rest
        ensures Eval(q, x) == KZero
      {
        FactorTheorem(c, r, x);
        KAddZero(KMul(KSub(x, r), Eval(q, x)));
        KSubAdd(x, r);
        if Eval(q, x) != KZero {
          KProductNonzero(KSub(x, r), Eval(q, x));
        }
      }
      hide KMul, KAdd, KSub, Eval, Quot;
      RootBound(q, rest);
    }
  }

  /** p - q, both padded to n coefficients. */
  function Difference(p: KPoly, q: KPoly, n: nat): (c: KPoly)
    requires |p| <= n && |q| <= n
    ensures |c| == n
  {
    PolySub(p + KZeros(n - |p|), q + KZeros(n - |q|))
  }

  lemma DifferenceAt(p: KPoly, q: KPoly, n: nat, x: K)
    requires |p| <= n && |q| <= n
    ensures Eval(Difference(p, q, n), x) == KSub(Eval(p, x), Eval(q, x))
    ensures Eval(Difference(p, q, n), x) == KZero <==> Eval(p, x) == Eval(q, x)
  {
    hide KSub, KAdd, KMul, Eval;
    EvalPad(p, n - |p|, x);
    EvalPad(q, n - |q|, x);
    EvalSub(p + KZeros(n - |p|), q + KZeros(n - |q|), x);
    KSubZero(Eval(p, x), Eval(q, x));
  }

  lemma KSubZero(a: K, b: K)
    ensures KSub(a, b) == KZero <==> a == b
  {}

  lemma ZeroPolyVanishes(c: KPoly, x: K)
    requires IsZeroPoly(c)
    ensures Eval(c, x) == KZero
  {
    assert c == KZeros(|c|);
    EvalZeros(|c|, x);
  }

  /** Two polynomials of at most n coefficients that differ somewhere agree on fewer than n points. */
  lemma AgreementBound(p: KPoly, q: KPoly, n: nat, y: K, points: set<K>)
    requires |p| <= n && |q| <= n && Eval(p, y) != Eval(q, y)
    requires forall x :: x in points ==> Eval(p, x) == Eval(q, x)
    ensures |points| < n
  {
    hide KSub, KAdd, KMul, Eval, Difference;
    var c := Difference(p, q, n);
    DifferenceAt(p, q, n, y);
    if IsZeroPoly(c) {
      ZeroPolyVanishes(c, y);
    }
    forall x | x in points
      ensures Eval(c, x) == KZero
    {
      DifferenceAt(p, q, n, x);
    }
    RootBound(c, points);
  }

  /** Polynomials of n coefficients that agree on n distinct points are equal. */
  lemma InterpolationUnique(p: KPoly, q: KPoly, points: set<K>)
    requires |p| == |q| <= |points|
    requires forall x :: x in points ==> Eval(p, x) == Eval(q, x)
    ensures p == q
  {
    hide KSub, KAdd, KMul, Eval;
    var c := Difference(p, q, |p|);
    forall x | x in points
      ensures Eval(c, x) == KZero
    {
      DifferenceAt(p, q, |p|, x);
    }
    if !IsZeroPoly(c) {
      RootBound(c, points);
    }
    assert p + KZeros(0) == p && q + KZeros(0) == q;
    forall i | 0 <= i < |p|
      ensures p[i] == q[i]
    {
      assert c[i] == KSub(p[i], q[i]);
      KSubAdd(p[i], q[i]);
    }
  }

  // ----- Lagrange interpolation -----

  ghost predicate Distinct(xs: seq<K>) {
    forall i, j :: 0 <= i < j < |xs| ==> xs[i] != xs[j]
  }

  /** The product of x - xs[l] over l < j, l != i. */
  function NodeProduct(xs: seq<K>, i: nat, x: K, j: nat): K
    requires j <= |xs|
  {
    if j == 0 then KOne
    else if j - 1 == i then NodeProduct(xs, i, x, j - 1)
    else KMul(NodeProduct(xs, i, x, j - 1), KSub(x, xs[j - 1]))
  }

  lemma {:induction false} NodeProductVanishes(xs: seq<K>, i: nat, m: nat, j: nat)
    requires m < j <= |xs| && m != i
    ensures NodeProduct(xs, i, xs[m], j) == KZero
  {
    hide KMul, KSub;
    var p := NodeProduct(xs, i, xs[m], j - 1);
    if j - 1 == m {
      KSubAdd(xs[m], xs[m]);
      KMulOne(p);
    } else {
      NodeProductVanishes(xs, i, m, j - 1);
      KMulOne(KSub(xs[m], xs[j - 1]));
    }
  }

  lemma {:induction false} NodeProductNonzero(xs: seq<K>, i: nat, j: nat)
    requires Distinct(xs) && i < |xs| && j <= |xs|
    ensures NodeProduct(xs, i, xs[i], j) != KZero
  {
    hide KMul, KSub;
    if j != 0 {
      NodeProductNonzero(xs, i, j - 1);
      if j - 1 != i {
        KSubAdd(xs[i], xs[j - 1]);
        KProductNonzero(NodeProduct(xs, i, xs[i], j - 1), KSub(xs[i], xs[j - 1]));
      }
    }
  }

  /** Coefficients of (X - a) p, in a buffer whose top coefficient is still free. */
  function TimesLinear(p: KPoly, a: K): (q: KPoly)
    ensures |q| == |p|
  {
    seq(|p|, d requires 0 <= d < |p| => TimesLinearAt(p, a, d))
  }

  function TimesLinearAt(p: KPoly, a: K, d: nat): K
    requires d < |p|
  {
    KAdd(if d == 0 then KZero else p[d - 1], KMul(KNeg(a), p[d]))
  }

  lemma EvalTimesLinear(p: KPoly, a: K, x: K)
    requires p != [] && p[|p| - 1] == KZero
    ensures Eval(TimesLinear(p, a), x) == KMul(KSub(x, a), Eval(p, x))
  {
    hide KMul, KAdd, KSub;
    var n := |p|;
    var up := [KZero] + p[..n - 1];
    var down := PolyScale(KNeg(a), p);
    assert TimesLinear(p, a) == PolyAdd(up, down);
    EvalAdd(up, down, x);
    EvalScale(KNeg(a), p, x);
    assert p == p[..n - 1] + KZeros(1);
    EvalPad(p[..n - 1], 1, x);
    assert up[1..] == p[..n - 1];
    KAddZero(KMul(x, Eval(p, x)));
    KMulAdd(Eval(p, x), x, KNeg(a));
    KSubAdd(x, a);
  }

  /** The inner loop of both interpolation routines: (X - a) numer into a fresh buffer. */
  method MultiplyByLinear(numer: KPoly, curDeg: nat, a: K) returns (next: KPoly)
    requires curDeg + 1 < |numer|
    requires forall d :: curDeg < d < |numer| ==> numer[d] == KZero
    ensures next == TimesLinear(numer, a)
    ensures forall d :: curDeg + 1 < d < |next| ==> next[d] == KZero
  {
    next := KZeros(|numer|);
    KMulOne(KNeg(a));
    KAddZero(KZero);
    hide KMul, KNeg;
    for d := 0 to curDeg + 1
      invariant |next| == |numer|
      invariant forall e :: 0 <= e < d ==> next[e] == TimesLinearAt(numer, a, e)
      invariant next[d] == if d == 0 then KZero else numer[d - 1]
      invariant forall e :: d < e < |next| ==> next[e] == KZero
    {
      KAddZero(numer[d]);
      next := next[d + 1 := KAdd(next[d + 1], numer[d])];
      next := next[d := KAdd(next[d], KMul(KNeg(a), numer[d]))];
    }
    KAddZero(numer[curDeg]);
    assert forall e :: 0 <= e < |next| ==> next[e] == TimesLinearAt(numer, a, e);
  }

  /** numer is the product of X - xs[l] over l < j, l != i. */
  ghost predicate IsNumerator(numer: KPoly, xs: seq<K>, i: nat, j: nat)
    requires j <= |xs|
  {
    |numer| == |xs| && forall x :: Eval(numer, x) == NodeProduct(xs, i, x, j)
  }

  lemma EmptyNumerator(xs: seq<K>, i: nat)
    requires xs != []
    ensures IsNumerator(KZeros(|xs|)[0 := KOne], xs, i, 0)
  {
    var numer := KZeros(|xs|)[0 := KOne];
    forall x
      ensures Eval(numer, x) == KOne
    {
      assert numer[1..] == KZeros(|xs| - 1);
      EvalZeros(|xs| - 1, x);
      KMulOne(x);
      KAddZero(KOne);
    }
  }

  lemma NumeratorStep(numer: KPoly, xs: seq<K>, i: nat, j: nat)
    requires j < |xs| && i != j && IsNumerator(numer, xs, i, j)
    requires numer[|xs| - 1] == KZero
    ensures IsNumerator(TimesLinear(numer, xs[j]), xs, i, j + 1)
  {
    hide KMul, KAdd, KSub, Eval, TimesLinear;
    var next := TimesLinear(numer, xs[j]);
    forall x
      ensures Eval(next, x) == NodeProduct(xs, i, x, j + 1)
    {
      EvalTimesLinear(numer, xs[j], x);
      KMulComm(KSub(x, xs[j]), Eval(numer, x));
    }
  }

  /** Numerator and denominator of the i-th basis polynomial. */
  method BasisParts(xs: seq<K>, i: nat) returns (numer: KPoly, denom: K)
    requires i < |xs|
    ensures IsNumerator(numer, xs, i, |xs|)
    ensures denom == NodeProduct(xs, i, xs[i], |xs|)
  {
    hide KMul, KAdd, KSub, Eval, TimesLinear;
    var n := |xs|;
    numer := KZeros(n)[0 := KOne];
    denom := KOne;
    var curDeg := 0;
    EmptyNumerator(xs, i);
    hide IsNumerator;
    for j := 0 to n
      invariant |numer| == n && curDeg == if j <= i then j else j - 1
      invariant forall d :: curDeg < d < n ==> numer[d] == KZero
      invariant IsNumerator(numer, xs, i, j)
      invariant denom == NodeProduct(xs, i, xs[i], j)
    {
      if i == j {
        SkipNumerator(numer, xs, i);
        continue;
      }
      NumeratorStep(numer, xs, i, j);
      numer := MultiplyByLinear(numer, curDeg, xs[j]);
      curDeg := curDeg + 1;
      denom := KMul(denom, KSub(xs[i], xs[j]));
    }
  }

  lemma SkipNumerator(numer: KPoly, xs: seq<K>, i: nat)
    requires i < |xs| && IsNumerator(numer, xs, i, i)
    ensures IsNumerator(numer, xs, i, i + 1)
  {
    forall x
      ensures NodeProduct(xs, i, x, i + 1) == NodeProduct(xs, i, x, i)
    {}
  }

  /** What makes a coefficient vector the i-th Lagrange basis polynomial. */
  ghost predicate IsBasis(b: KPoly, xs: seq<K>, i: nat) {
    |b| == |xs| && forall m :: 0 <= m < |xs| ==> Eval(b, xs[m]) == if m == i then KOne else KZero
  }

  lemma ScaledNumeratorIsBasis(xs: seq<K>, i: nat, numer: KPoly, s: K)
    requires Distinct(xs) && i < |xs| && IsNumerator(numer, xs, i, |xs|)
    requires s == KInv(NodeProduct(xs, i, xs[i], |xs|))
    ensures IsBasis(PolyScale(s, numer), xs, i)
  {
    hide KMul, KInv, KSub, Eval;
    forall m | 0 <= m < |xs|
      ensures Eval(PolyScale(s, numer), xs[m]) == if m == i then KOne else KZero
    {
      EvalScale(s, numer, xs[m]);
      if m == i {
        NodeProductNonzero(xs, i, |xs|);
        KInvIsInverse(NodeProduct(xs, i, xs[i], |xs|));
      } else {
        NodeProductVanishes(xs, i, m, |xs|);
        KMulOne(s);
      }
    }
  }

  /** Adding y times the i-th basis polynomial sets the value at node i and keeps the others. */
  lemma AddBasis(c: KPoly, b: KPoly, xs: seq<K>, i: nat, y: K)
    requires i < |xs| && IsBasis(b, xs, i) && |c| == |xs|
    ensures forall m :: 0 <= m < |xs| ==>
      Eval(PolyAdd(c, PolyScale(y, b)), xs[m])
      == if m == i then KAdd(Eval(c, xs[m]), y) else Eval(c, xs[m])
  {
    hide KMul, KAdd, Eval;
    forall m | 0 <= m < |xs|
      ensures Eval(PolyAdd(c, PolyScale(y, b)), xs[m])
           == if m == i then KAdd(Eval(c, xs[m]), y) else Eval(c, xs[m])
    {
      EvalAdd(c, PolyScale(y, b), xs[m]);
      EvalScale(y, b, xs[m]);
      KMulOne(y);
      KAddZero(Eval(c, xs[m]));
    }
  }

  /** `interpolate_from_evals`: the coefficients reproduce every sample. */
  method InterpolateFromEvals(xs: seq<K>, ys: seq<K>) returns (coeffs: KPoly)
    requires |xs| == |ys| && Distinct(xs)
    ensures |coeffs| == |xs|
    ensures forall m :: 0 <= m < |xs| ==> Eval(coeffs, xs[m]) == ys[m]
  {
    hide KMul, KAdd, Eval, KInv;
    var n := |xs|;
    coeffs := KZeros(n);
    forall m | 0 <= m < n
      ensures Eval(coeffs, xs[m]) == KZero
    {
      EvalZeros(n, xs[m]);
    }
    for i := 0 to n
      invariant |coeffs| == n
      invariant forall m :: 0 <= m < n ==> Eval(coeffs, xs[m]) == if m < i then ys[m] else KZero
    {
      var numer, denom := BasisParts(xs, i);
      var inv := KInv(denom);
      var scale := KMul(ys[i], inv);
      ghost var before, b := coeffs, PolyScale(inv, numer);
      ScaledNumeratorIsBasis(xs, i, numer, inv);
      for d := 0 to n
        invariant |coeffs| == n
        invariant forall e :: 0 <= e < n ==>
          coeffs[e] == if e < d then KAdd(before[e], KMul(ys[i], b[e])) else before[e]
      {
        KMulAssoc(ys[i], inv, numer[d]);
        coeffs := coeffs[d := KAdd(coeffs[d], KMul(scale, numer[d]))];
      }
      assert coeffs == PolyAdd(before, PolyScale(ys[i], b));
      AddBasis(before, b, xs, i, ys[i]);
      KAddZero(ys[i]);
    }
  }

  datatype InterpolationPlan = Plan(xs: seq<K>, basis: seq<KPoly>) {
    ghost predicate Valid() {
      |basis| == |xs| && Distinct(xs) && forall i :: 0 <= i < |xs| ==> IsBasis(basis[i], xs, i)
    }
  }

  /** The integer nodes 0, .., deg. */
  function Nodes(deg: nat): (xs: seq<K>)
    requires deg < Q
    ensures |xs| == deg + 1 && forall t :: 0 <= t <= deg ==> xs[t] == K(t, 0)
  {
    seq(deg + 1, t requires 0 <= t <= deg => FromBase(t))
  }

  /** `build_interpolation_plan_for_degree`. */
  method BuildPlan(deg: nat) returns (plan: InterpolationPlan)
    requires deg < Q
    ensures plan.Valid() && plan.xs == Nodes(deg)
  {
    hide KMul, KInv, Eval;
    var xs := Nodes(deg);
    var basis: seq<KPoly> := [];
    for i := 0 to |xs|
      invariant |basis| == i
      invariant forall k :: 0 <= k < i ==> IsBasis(basis[k], xs, k)
    {
      var numer, denom := BasisParts(xs, i);
      var scale := KInv(denom);
      var row := KZeros(|xs|);
      for d := 0 to |xs|
        invariant |row| == |xs|
        invariant forall e :: 0 <= e < d ==> row[e] == KMul(scale, numer[e])
      {
        KMulComm(numer[d], scale);
        row := row[d := KMul(numer[d], scale)];
      }
      assert row == PolyScale(scale, numer);
      ScaledNumeratorIsBasis(xs, i, numer, scale);
      basis := basis + [row];
    }
    plan := Plan(xs, basis);
  }

  /** `interpolate_from_evals_with_plan`, skipping zero samples and zero coefficients. */
  method InterpolateWithPlan(plan: InterpolationPlan, ys: seq<K>) returns (coeffs: KPoly)
    requires plan.Valid() && |ys| == |plan.xs|
    ensures |coeffs| == |ys|
    ensures forall m :: 0 <= m < |ys| ==> Eval(coeffs, plan.xs[m]) == ys[m]
  {
    hide KMul, KAdd, Eval;
    var n := |plan.xs|;
    coeffs := KZeros(n);
    forall m | 0 <= m < n
      ensures Eval(coeffs, plan.xs[m]) == KZero
    {
      EvalZeros(n, plan.xs[m]);
    }
    for i := 0 to n
      invariant |coeffs| == n
      invariant forall m :: 0 <= m < n ==> Eval(coeffs, plan.xs[m]) == if m < i then ys[m] else KZero
    {
      if ys[i] == KZero {
        continue;
      }
      ghost var before := coeffs;
      var b := plan.basis[i];
      for d := 0 to n
        invariant |coeffs| == n
        invariant forall e :: 0 <= e < n ==>
          coeffs[e] == if e < d then KAdd(before[e], KMul(ys[i], b[e])) else before[e]
      {
        KMulOne(ys[i]);
        KAddZero(before[d]);
        if b[d] == KZero {
          continue;
        }
        coeffs := coeffs[d := KAdd(coeffs[d], KMul(ys[i], b[d]))];
      }
      assert coeffs == PolyAdd(before, PolyScale(ys[i], b));
      AddBasis(before, b, plan.xs, i, ys[i]);
      KAddZero(ys[i]);
    }
  }

  ghost function ToSet(xs: seq<K>): set<K> {
    set x | x in xs
  }

  lemma {:induction false} DistinctSetSize(xs: seq<K>)
    requires Distinct(xs)
    ensures |ToSet(xs)| == |xs|
  {
    if xs == [] {
      assert ToSet(xs) == {};
    } else {
      var n := |xs| - 1;
      DistinctSetSize(xs[..n]);
      assert ToSet(xs) == ToSet(xs[..n]) + {xs[n]};
      assert xs[n] !in xs[..n];
    }
  }

  /** Samples on distinct nodes determine the coefficients: plain and cached interpolation agree. */
  lemma SamplesDetermine(xs: seq<K>, p: KPoly, q: KPoly)
    requires Distinct(xs) && |p| == |q| == |xs|
    requires forall m :: 0 <= m < |xs| ==> Eval(p, xs[m]) == Eval(q, xs[m])
    ensures p == q
  {
    hide Eval;
    DistinctSetSize(xs);
    InterpolationUnique(p, q, ToSet(xs));
  }
}
