/** The Goldilocks base field F_q, q = 2^64 - 2^32 + 1, on canonical representatives. */
module Field {

  const Q: int := 0xFFFF_FFFF_0000_0001

  type Fq = x: int | 0 <= x < Q

  function Add(a: Fq, b: Fq): Fq { if a + b < Q then a + b else a + b - Q }

  function Neg(a: Fq): Fq { if a == 0 then 0 else Q - a }

  function Sub(a: Fq, b: Fq): Fq { if a < b then a - b + Q else a - b }

  /** Field product by double-and-add; `RedMul` says that it is the product modulo q. */
  function Mul(a: Fq, b: Fq): Fq
    decreases b
  {
    if b == 0 then 0
    else
      var half := Mul(a, b / 2);
      if b % 2 == 0 then Add(half, half) else Add(Add(half, half), a)
  }

  /** The field element represented by an integer. */
  function Red(x: int): Fq { x % Q }

  // ----- integers modulo q -----

  lemma RedUnique(x: int, k: int, r: Fq)
    requires x == k * Q + r
    ensures Red(x) == r
  {}

  lemma RedSplit(x: int) returns (k: int)
    ensures x == k * Q + Red(x)
  {
    k := x / Q;
  }

  lemma RedAdd(x: int, y: int)
    ensures Red(x + y) == Add(Red(x), Red(y))
    ensures Red(x - y) == Sub(Red(x), Red(y))
    ensures Red(-x) == Neg(Red(x))
  {
    var a, b := Red(x), Red(y);
    var j := RedSplit(x);
    var k := RedSplit(y);
    hide Red;
    RedUnique(x + y, if a + b < Q then j + k else j + k + 1, Add(a, b));
    RedUnique(x - y, if a < b then j - k - 1 else j - k, Sub(a, b));
    RedUnique(-x, if a == 0 then -j else -j - 1, Neg(a));
  }

  lemma RedCanonical(a: Fq)
    ensures Red(a) == a
  {
    RedUnique(a, 0, a);
  }

  lemma {:induction false} MulIsProduct(a: Fq, b: Fq)
    ensures Mul(a, b) == Red(a * b)
    decreases b
  {
    hide Red;
    if b == 0 {
      RedCanonical(0);
    } else {
      var c := b / 2;
      MulIsProduct(a, c);
      var h := a * c;
      RedAdd(h, h);
      RedAdd(h + h, a);
      RedCanonical(a);
      ProductHalves(a, b);
      hide Add;
    }
  }

  lemma ProductHalves(a: int, b: nat)
    ensures a * b == a * (b / 2) + a * (b / 2) + if b % 2 == 0 then 0 else a
  {
    var c := b / 2;
    if b % 2 == 0 {
      assert a * (c + c) == a * c + a * c;
    } else {
      assert a * (c + c + 1) == a * c + a * c + a;
    }
  }

  /** Reduction modulo q is a ring homomorphism from the integers onto the field. */
  lemma RedMul(x: int, y: int)
    ensures Red(x * y) == Mul(Red(x), Red(y))
  {
    var a, b := Red(x), Red(y);
    var j := RedSplit(x);
    var k := RedSplit(y);
    MulIsProduct(a, b);
    var i := RedSplit(a * b);
    hide Red;
    hide Mul;
    var n := a * k + j * b + j * k * Q;
    ProductSplit(a, j, b, k);
    assert x * y == (i + n) * Q + Red(a * b);
    RedUnique(x * y, i + n, Red(a * b));
  }

  lemma ProductSplit(a: int, j: int, b: int, k: int)
    ensures (j * Q + a) * (k * Q + b) == a * b + (a * k + j * b + j * k * Q) * Q
  {
    var x, y := j * Q, k * Q;
    assert (x + a) * (y + b) == x * y + x * b + a * y + a * b;
    assert x * y == j * k * Q * Q;
    assert x * b == j * b * Q;
    assert a * y == a * k * Q;
  }

  // ----- commutative ring laws -----

  lemma AddAssoc(a: Fq, b: Fq, c: Fq)
    ensures Add(Add(a, b), c) == Add(a, Add(b, c))
  {}

  lemma AddSwap(a: Fq, b: Fq, c: Fq, d: Fq)
    ensures Add(Add(a, b), Add(c, d)) == Add(Add(a, c), Add(b, d))
  {}

  lemma MulComm(a: Fq, b: Fq)
    ensures Mul(a, b) == Mul(b, a)
  {
    MulIsProduct(a, b);
    MulIsProduct(b, a);
    hide Mul;
    hide Red;
    assert a * b == b * a;
  }

  lemma MulAssoc(a: Fq, b: Fq, c: Fq)
    ensures Mul(Mul(a, b), c) == Mul(a, Mul(b, c))
  {
    hide Mul;
    hide Red;
    MulIsProduct(a, b);
    MulIsProduct(b, c);
    RedMul(a * b, c);
    RedMul(a, b * c);
    RedCanonical(a);
    RedCanonical(c);
    assert a * b * c == a * (b * c);
  }

  lemma MulSwap(a: Fq, b: Fq, c: Fq, d: Fq)
    ensures Mul(Mul(a, b), Mul(c, d)) == Mul(Mul(a, c), Mul(b, d))
  {
    hide Mul;
    MulAssoc(a, b, Mul(c, d));
    MulAssoc(b, c, d);
    MulComm(b, c);
    MulAssoc(c, b, d);
    MulAssoc(a, c, Mul(b, d));
  }

  lemma MulAdd(a: Fq, b: Fq, c: Fq)
    ensures Mul(a, Add(b, c)) == Add(Mul(a, b), Mul(a, c))
    ensures Mul(Add(b, c), a) == Add(Mul(b, a), Mul(c, a))
  {
    hide Mul;
    hide Red;
    RedMul(a, b + c);
    RedAdd(b, c);
    RedAdd(a * b, a * c);
    RedCanonical(a);
    RedCanonical(b);
    RedCanonical(c);
    MulIsProduct(a, b);
    MulIsProduct(a, c);
    assert a * (b + c) == a * b + a * c;
    hide Add;
    MulComm(a, Add(b, c));
    MulComm(a, b);
    MulComm(a, c);
  }

  lemma MulOne(a: Fq)
    ensures Mul(a, 1) == a == Mul(1, a)
    ensures Mul(a, 0) == 0 == Mul(0, a)
  {
    MulComm(1, a);
    MulComm(0, a);
  }

  lemma MulNeg(a: Fq, b: Fq)
    ensures Mul(a, Neg(b)) == Neg(Mul(a, b)) == Mul(Neg(a), b)
  {
    MulAdd(a, b, Neg(b));
    MulAdd(b, a, Neg(a));
    MulOne(a);
    MulOne(b);
    hide Mul;
  }

  lemma MulSub(a: Fq, b: Fq, c: Fq)
    ensures Mul(a, Sub(b, c)) == Sub(Mul(a, b), Mul(a, c))
  {
    MulAdd(a, b, Neg(c));
    MulNeg(a, c);
    hide Mul;
  }
}
