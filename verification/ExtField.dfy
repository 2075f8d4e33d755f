/** The quadratic extension K = F_q[u]/(u^2 - 7). */
module ExtField {
  import opened Field
  import opened Goldilocks

  datatype K = K(re: Fq, im: Fq)

  const KZero: K := K(0, 0)
  const KOne: K := K(1, 0)

  function FromBase(x: Fq): K { K(x, 0) }

  function KAdd(a: K, b: K): K { K(Add(a.re, b.re), Add(a.im, b.im)) }

  function KSub(a: K, b: K): K { K(Sub(a.re, b.re), Sub(a.im, b.im)) }

  function KNeg(a: K): K { K(Neg(a.re), Neg(a.im)) }

  function KMul(a: K, b: K): K {
    K(Add(Mul(a.re, b.re), Mul(7, Mul(a.im, b.im))), Add(Mul(a.re, b.im), Mul(a.im, b.re)))
  }

  /** Inverse through the norm re^2 - 7 im^2. */
  function KInv(a: K): K {
    var n := Inv(Norm(a));
    K(Mul(a.re, n), Neg(Mul(a.im, n)))
  }

  function Norm(a: K): Fq { Sub(Mul(a.re, a.re), Mul(7, Mul(a.im, a.im))) }

  // ----- ring laws, through integer representatives -----

  function Rep(x: int, y: int): K { K(Red(x), Red(y)) }

  lemma RepOf(a: K)
    ensures Rep(a.re, a.im) == a
  {
    RedCanonical(a.re);
    RedCanonical(a.im);
  }

  lemma RepMul(x: int, y: int, z: int, w: int)
    ensures KMul(Rep(x, y), Rep(z, w)) == Rep(x * z + 7 * (y * w), x * w + y * z)
  {
    hide Mul, Red, Add;
    RedMul(x, z);
    RedMul(y, w);
    RedMul(7, y * w);
    RedCanonical(7);
    RedMul(x, w);
    RedMul(y, z);
    RedAdd(x * z, 7 * (y * w));
    RedAdd(x * w, y * z);
  }

  lemma KAddComm(a: K, b: K)
    ensures KAdd(a, b) == KAdd(b, a)
  {}

  lemma KAddAssoc(a: K, b: K, c: K)
    ensures KAdd(KAdd(a, b), c) == KAdd(a, KAdd(b, c))
  {}

  lemma KAddSwap(a: K, b: K, c: K, d: K)
    ensures KAdd(KAdd(a, b), KAdd(c, d)) == KAdd(KAdd(a, c), KAdd(b, d))
  {
    AddSwap(a.re, b.re, c.re, d.re);
    AddSwap(a.im, b.im, c.im, d.im);
    hide Add;
  }

  lemma KAddZero(a: K)
    ensures KAdd(a, KZero) == a == KAdd(KZero, a)
  {}

  lemma KSubAdd(a: K, b: K)
    ensures KAdd(KSub(a, b), b) == a
    ensures KSub(a, b) == KAdd(a, KNeg(b))
    ensures KSub(a, b) == KZero <==> a == b
  {}

  lemma KMulComm(a: K, b: K)
    ensures KMul(a, b) == KMul(b, a)
  {
    hide Mul;
    MulComm(a.re, b.re);
    MulComm(a.im, b.im);
    MulComm(a.re, b.im);
    MulComm(a.im, b.re);
  }

  lemma KMulAdd(a: K, b: K, c: K)
    ensures KMul(a, KAdd(b, c)) == KAdd(KMul(a, b), KMul(a, c))
    ensures KMul(KAdd(b, c), a) == KAdd(KMul(b, a), KMul(c, a))
  {
    hide Mul, Add;
    MulAdd(a.re, b.re, c.re);
    MulAdd(a.im, b.im, c.im);
    MulAdd(7, Mul(a.im, b.im), Mul(a.im, c.im));
    MulAdd(a.re, b.im, c.im);
    MulAdd(a.im, b.re, c.re);
    AddSwap(Mul(a.re, b.re), Mul(a.re, c.re), Mul(7, Mul(a.im, b.im)), Mul(7, Mul(a.im, c.im)));
    AddSwap(Mul(a.re, b.im), Mul(a.re, c.im), Mul(a.im, b.re), Mul(a.im, c.re));
    KMulComm(a, KAdd(b, c));
    KMulComm(a, b);
    KMulComm(a, c);
  }

  lemma KMulAssoc(a: K, b: K, c: K)
    ensures KMul(KMul(a, b), c) == KMul(a, KMul(b, c))
  {
    RepOf(a);
    RepOf(b);
    RepOf(c);
    hide Mul, Red, Add, KMul, Rep;
    var p: int, q: int, r: int, s: int, t: int, u: int := a.re, a.im, b.re, b.im, c.re, c.im;
    RepMul(p, q, r, s);
    RepMul(r, s, t, u);
    var x, y := p * r + 7 * (q * s), p * s + q * r;
    var z, w := r * t + 7 * (s * u), r * u + s * t;
    RepMul(x, y, t, u);
    RepMul(p, q, z, w);
    AssocIdentity(p, q, r, s, t, u);
  }

  lemma AssocIdentity(p: int, q: int, r: int, s: int, t: int, u: int)
    ensures (p * r + 7 * (q * s)) * t + 7 * ((p * s + q * r) * u) == p * (r * t + 7 * (s * u)) + 7 * (q * (r * u + s * t))
    ensures (p * r + 7 * (q * s)) * u + (p * s + q * r) * t == p * (r * u + s * t) + q * (r * t + 7 * (s * u))
  {
    LeftProducts(p * r, q * s, p * s, q * r, t, u);
    LeftProducts(r * t, s * u, r * u, s * t, p, q);
    Regroup(p, r, t);
    Regroup(p, s, u);
    Regroup(q, r, u);
    Regroup(q, s, t);
    Regroup(p, r, u);
    Regroup(p, s, t);
    Regroup(q, r, t);
    Regroup(q, s, u);
  }

  lemma Regroup(x: int, y: int, z: int)
    ensures (x * y) * z == x * (y * z) == (y * z) * x
  {}

  lemma LeftProducts(a: int, b: int, c: int, d: int, t: int, u: int)
    ensures (a + 7 * b) * t == a * t + 7 * (b * t) && (a + 7 * b) * u == a * u + 7 * (b * u)
    ensures (c + d) * u == c * u + d * u && (c + d) * t == c * t + d * t
    ensures t * (a + 7 * b) == a * t + 7 * (b * t) && u * (a + 7 * b) == a * u + 7 * (b * u)
    ensures u * (c + d) == c * u + d * u && t * (c + d) == c * t + d * t
  {}

  lemma KMulOne(a: K)
    ensures KMul(a, KOne) == a == KMul(KOne, a)
    ensures KMul(a, KZero) == KZero == KMul(KZero, a)
  {
    MulOne(a.re);
    MulOne(a.im);
    MulOne(7);
    hide Mul;
  }

  lemma KMulSub(a: K, b: K, c: K)
    ensures KMul(a, KSub(b, c)) == KSub(KMul(a, b), KMul(a, c))
    ensures KMul(KSub(b, c), a) == KSub(KMul(b, a), KMul(c, a))
  {
    hide Mul, KMul;
    KMulAdd(a, KSub(b, c), c);
    KSubAdd(b, c);
    AddThenSub(KMul(a, KSub(b, c)), KMul(a, c));
    KMulComm(a, KSub(b, c));
    KMulComm(a, b);
    KMulComm(a, c);
  }

  lemma AddThenSub(a: K, b: K)
    ensures KSub(KAdd(a, b), b) == a
  {}

  lemma BaseIsHomomorphic(x: Fq, y: Fq)
    ensures KAdd(FromBase(x), FromBase(y)) == FromBase(Add(x, y))
    ensures KSub(FromBase(x), FromBase(y)) == FromBase(Sub(x, y))
    ensures KMul(FromBase(x), FromBase(y)) == FromBase(Mul(x, y))
  {
    MulOne(x);
    MulOne(y);
    MulOne(7);
    MulOne(0);
    hide Mul;
  }

  // ----- K is a field -----

  /** The norm vanishes only at zero, because 7 is no square. */
  lemma NormNonzero(a: K)
    requires a != KZero
    ensures Norm(a) != 0
  {
    hide Mul;
    MulOne(a.im);
    MulOne(7);
    if Norm(a) == 0 {
      if a.im == 0 {
        ProductNonzero(a.re, a.re);
        assert false;
      } else {
        var i := Inv(a.im);
        hide Inv;
        InvIsInverse(a.im);
        var x := Mul(a.re, i);
        MulSwap(a.re, i, a.re, i);
        var t := Mul(a.im, a.im);
        MulAssoc(7, t, Mul(i, i));
        MulSwap(a.im, a.im, i, i);
        MulOne(1);
        SevenIsNoSquare(x);
      }
    }
  }

  lemma KInvIsInverse(a: K)
    requires a != KZero
    ensures KMul(a, KInv(a)) == KOne == KMul(KInv(a), a)
    ensures KInv(a) != KZero
  {
    hide Mul, Inv;
    NormNonzero(a);
    var n := Inv(Norm(a));
    InvIsInverse(Norm(a));
    var x, y := a.re, a.im;
    var s, t := Mul(x, x), Mul(7, Mul(y, y));
    MulAssoc(x, x, n);
    MulNeg(y, Mul(y, n));
    MulAssoc(y, y, n);
    MulNeg(7, Mul(Mul(y, y), n));
    MulAssoc(7, Mul(y, y), n);
    MulSub(n, s, t);
    MulComm(n, Sub(s, t));
    MulComm(n, s);
    MulComm(n, t);
    MulNeg(x, Mul(y, n));
    MulAssoc(x, y, n);
    MulAssoc(y, x, n);
    MulComm(x, y);
    KMulComm(a, KInv(a));
    KMulOne(a);
  }

  lemma KProductNonzero(a: K, b: K)
    requires a != KZero && b != KZero
    ensures KMul(a, b) != KZero
  {
    hide KMul, KInv;
    KInvIsInverse(a);
    KMulAssoc(KInv(a), a, b);
    KMulOne(b);
    KMulOne(KInv(a));
  }
}
