/** Vectors over F_q. */
module Vectors {
  import opened Field

  type Vec = seq<Fq>

  function Zeros(n: nat): (v: Vec)
    ensures |v| == n
  {
    seq(n, i => 0)
  }

  function Plus(u: Vec, v: Vec): (w: Vec)
    requires |u| == |v|
    ensures |w| == |u|
  {
    seq(|u|, i requires 0 <= i < |u| => Add(u[i], v[i]))
  }

  function Minus(u: Vec, v: Vec): (w: Vec)
    requires |u| == |v|
    ensures |w| == |u|
  {
    seq(|u|, i requires 0 <= i < |u| => Sub(u[i], v[i]))
  }

  function Scale(c: Fq, v: Vec): (w: Vec)
    ensures |w| == |v|
  {
    seq(|v|, i requires 0 <= i < |v| => Mul(c, v[i]))
  }

  lemma PlusComm(u: Vec, v: Vec)
    requires |u| == |v|
    ensures Plus(u, v) == Plus(v, u)
  {}

  lemma PlusAssoc(u: Vec, v: Vec, w: Vec)
    requires |u| == |v| == |w|
    ensures Plus(Plus(u, v), w) == Plus(u, Plus(v, w))
  {}

  lemma PlusZeros(v: Vec)
    ensures Plus(Zeros(|v|), v) == v == Plus(v, Zeros(|v|))
  {}

  lemma PlusMinus(u: Vec, v: Vec)
    requires |u| == |v|
    ensures Plus(Minus(u, v), v) == u == Minus(Plus(u, v), v)
  {}

  /** (a + b) + (c + d) == (a + c) + (b + d) */
  lemma PlusSwap(a: Vec, b: Vec, c: Vec, d: Vec)
    requires |a| == |b| == |c| == |d|
    ensures Plus(Plus(a, b), Plus(c, d)) == Plus(Plus(a, c), Plus(b, d))
  {}

  lemma ScalePlus(c: Fq, u: Vec, v: Vec)
    requires |u| == |v|
    ensures Scale(c, Plus(u, v)) == Plus(Scale(c, u), Scale(c, v))
  {
    forall i | 0 <= i < |u|
      ensures Scale(c, Plus(u, v))[i] == Plus(Scale(c, u), Scale(c, v))[i]
    {
      MulAdd(c, u[i], v[i]);
    }
  }

  lemma ScaleAdd(c: Fq, d: Fq, v: Vec)
    ensures Scale(Add(c, d), v) == Plus(Scale(c, v), Scale(d, v))
  {
    forall i | 0 <= i < |v|
      ensures Scale(Add(c, d), v)[i] == Plus(Scale(c, v), Scale(d, v))[i]
    {
      MulAdd(v[i], c, d);
    }
  }

  lemma ScaleScale(c: Fq, d: Fq, v: Vec)
    ensures Scale(c, Scale(d, v)) == Scale(Mul(c, d), v) == Scale(d, Scale(c, v))
  {
    forall i | 0 <= i < |v|
      ensures Scale(c, Scale(d, v))[i] == Scale(Mul(c, d), v)[i] == Scale(d, Scale(c, v))[i]
    {
      MulAssoc(c, d, v[i]);
      MulAssoc(d, c, v[i]);
      MulComm(c, d);
    }
  }

  lemma ScaleOne(v: Vec)
    ensures Scale(1, v) == v
    ensures Scale(0, v) == Zeros(|v|)
  {
    forall i | 0 <= i < |v|
      ensures Scale(1, v)[i] == v[i] && Scale(0, v)[i] == 0
    {
      MulOne(v[i]);
    }
  }

  lemma ScaleZeros(c: Fq, n: nat)
    ensures Scale(c, Zeros(n)) == Zeros(n)
  {
    MulOne(c);
  }
}
