/**
 * The group in which MWEB commitments and public keys live.
 *
 * secp256k1 has prime order N, so every point is `g*G + v*H` for some integers g and v, and
 * points may be numbered 0..N-1 (in the order of their encodings). `curve` is an ARBITRARY such
 * group: only the laws of `IsGroup` are known about it, and `Modular` shows that they are
 * consistent. Working with the integer pair (g, v) turns rearranging a sum of points into linear
 * arithmetic; the price is that equality of points is the congruence `Same`, not equality of pairs.
 */
module Curve {
  import opened Bytes

  type Positive = x: int | 0 < x witness 1

  ghost predicate FitsBelow(order: int, p: int) {
    p < order ==> p < Pow256(32)
  }

  /** Numbers below the order fit 32 bytes; stated so that it is used only where it is asked for. */
  type Order = x: int | 0 < x && forall p :: FitsBelow(x, p)
    witness (OneFits(); 1)

  lemma OneFits()
    ensures forall p :: FitsBelow(1, p)
  {
    WidthPositive(32);
  }

  /** The order of the group. Nothing depends on its value beyond fitting 32 bytes. */
  const N: Order

  lemma ScalarFits(p: int)
    requires p < N
    ensures p < Pow256(32)
  {
    assert FitsBelow(N, p);
  }

  type Scalar = x: int | 0 <= x < N
  type Point = x: int | 0 <= x < N

  /** The formal combination `g*G + v*H`. */
  datatype Vec = Vec(g: int, v: int) {
    function Plus(w: Vec): Vec { Vec(g + w.g, v + w.v) }
    function Minus(w: Vec): Vec { Vec(g - w.g, v - w.v) }
  }

  const Zero: Vec := Vec(0, 0)

  datatype Group = Group(point: Vec -> Point, open: Point -> Vec)

  /** `open` returns some combination that stands for the point. */
  ghost predicate Opens(c: Group, p: Point) {
    c.point(c.open(p)) == p
  }

  /** Adding the same combination to two names of a point gives two names of a point. */
  ghost predicate Shifts(c: Group, x: Vec, y: Vec, z: Vec) {
    c.point(x) == c.point(y) ==> c.point(x.Plus(z)) == c.point(y.Plus(z))
  }

  /** `N*G` is the identity, so scalars may be reduced. */
  ghost predicate Reduces(c: Group, x: Vec) {
    c.point(Vec(x.g % N, x.v)) == c.point(x)
  }

  ghost predicate IsGroup(c: Group) {
    && (forall p: Point :: Opens(c, p))
    && (forall x, y, z :: Shifts(c, x, y, z))
    && (forall x :: Reduces(c, x))
  }

  /** A concrete group satisfying the laws: integers modulo N, with H = 2*G. */
  function Modular(): (c: Group)
    ensures IsGroup(c)
  {
    var c := Group((x: Vec) => (x.g + 2 * x.v) % N, (p: Point) => Vec(p, 0));
    ModularIsGroup(c);
    c
  }

  lemma ModularIsGroup(c: Group)
    requires forall x :: c.point(x) == (x.g + 2 * x.v) % N
    requires forall p: Point :: c.open(p) == Vec(p, 0)
    ensures IsGroup(c)
  {
    forall p: Point ensures Opens(c, p) {
      assert c.open(p) == Vec(p, 0);
      Residue(N, p, 0, p);
    }
    forall x: Vec, y: Vec, z: Vec ensures Shifts(c, x, y, z) {
      var a, b, d := x.g + 2 * x.v, y.g + 2 * y.v, z.g + 2 * z.v;
      ModularShifts(a, b, d);
      assert x.Plus(z).g + 2 * x.Plus(z).v == a + d && y.Plus(z).g + 2 * y.Plus(z).v == b + d;
    }
    forall x: Vec ensures Reduces(c, x) {
      ModularReduces(x.g, 2 * x.v);
    }
  }

  lemma ModularShifts(a: int, b: int, c: int)
    ensures a % N == b % N ==> (a + c) % N == (b + c) % N
  {
    ModularReduces(a, c);
    ModularReduces(b, c);
  }

  lemma ModularReduces(a: int, b: int)
    ensures (a % N + b) % N == (a + b) % N
  {
    var q, r := a / N, a % N;
    var s, u := (r + b) / N, (r + b) % N;
    assert a == N * q + r && r + b == N * s + u;
    assert N * (q + s) == N * q + N * s;
    Residue(N, a + b, q + s, u);
  }

  /** The remainder is unique. */
  lemma Residue(n: int, x: int, q: int, r: int)
    requires 0 <= r < n && x == n * q + r
    ensures x % n == r
  {
    var p, s := x / n, x % n;
    assert x == n * p + s;
    assert n * (p - q) == n * p - n * q;
    if p - q >= 1 {
      Scale(n, p - q, 1);
    } else if p - q <= -1 {
      Scale(n, -1, p - q);
    }
  }

  lemma Scale(n: int, a: int, b: int)
    requires n > 0 && a >= b
    ensures n * a >= n * b
  {
  }

  type PedersenGroup = c: Group | IsGroup(c) witness Modular()

  const curve: PedersenGroup

  /** The point named by a formal combination. */
  function P(x: Vec): Point { curve.point(x) }

  function Open(p: Point): Vec { curve.open(p) }

  /** Do two combinations name the same point? */
  predicate Same(x: Vec, y: Vec) { P(x) == P(y) }

  /** `mw.NewCommitment(blind, value)`. */
  function NewCommitment(blind: int, value: int): Point { P(Vec(blind, value)) }

  /** `SecretKey.PubKey()`. */
  function PubKey(k: int): Point { P(Vec(k, 0)) }

  function Add(p: Point, q: Point): Point { P(Open(p).Plus(Open(q))) }

  function Sub(p: Point, q: Point): Point { P(Open(p).Minus(Open(q))) }

  /** `BlindingFactor.Add` and `SecretKey.Add`: addition modulo the group order. */
  function AddScalar(a: int, b: int): Scalar { (a + b) % N }

  function SubScalar(a: int, b: int): Scalar { (a - b) % N }

  lemma SameShift(x: Vec, y: Vec, z: Vec)
    requires Same(x, y)
    ensures Same(x.Plus(z), y.Plus(z))
  {
    assert Shifts(curve, x, y, z);
  }

  /** `Same` is a congruence: sums and differences of equal points are equal. */
  lemma SamePlus(x: Vec, y: Vec, z: Vec, w: Vec)
    requires Same(x, y) && Same(z, w)
    ensures Same(x.Plus(z), y.Plus(w))
  {
    SameShift(x, y, z);
    SameShift(z, w, y);
    assert z.Plus(y) == y.Plus(z) && w.Plus(y) == y.Plus(w);
  }

  lemma SameMinus(x: Vec, y: Vec, z: Vec, w: Vec)
    requires Same(x, y) && Same(z, w)
    ensures Same(x.Minus(z), y.Minus(w))
  {
    SameShift(z, w, Zero.Minus(z).Minus(w));
    assert z.Plus(Zero.Minus(z).Minus(w)) == Zero.Minus(w);
    assert w.Plus(Zero.Minus(z).Minus(w)) == Zero.Minus(z);
    SamePlus(x, y, Zero.Minus(z), Zero.Minus(w));
    assert x.Plus(Zero.Minus(z)) == x.Minus(z);
    assert y.Plus(Zero.Minus(w)) == y.Minus(w);
  }

  lemma OpenNames(p: Point)
    ensures P(Open(p)) == p
  {
    assert Opens(curve, p);
  }

  lemma OpenSame(x: Vec)
    ensures Same(Open(P(x)), x)
  {
    OpenNames(P(x));
  }

  /** Point addition is addition of names, whichever names were chosen. */
  lemma AddNames(x: Vec, y: Vec)
    ensures Add(P(x), P(y)) == P(x.Plus(y))
  {
    OpenSame(x);
    OpenSame(y);
    SamePlus(Open(P(x)), x, Open(P(y)), y);
  }

  lemma SubNames(x: Vec, y: Vec)
    ensures Sub(P(x), P(y)) == P(x.Minus(y))
  {
    OpenSame(x);
    OpenSame(y);
    SameMinus(Open(P(x)), x, Open(P(y)), y);
  }

  lemma SameReduce(g: int, v: int)
    ensures Same(Vec(g % N, v), Vec(g, v))
  {
    assert Reduces(curve, Vec(g, v));
  }

  /** Cancellation: two names agree exactly when their difference names the identity. */
  lemma SameDifference(x: Vec, y: Vec)
    ensures Same(x, y) <==> Same(x.Minus(y), Zero)
  {
    if Same(x, y) {
      SameMinus(x, y, y, y);
      assert y.Minus(y) == Zero;
    }
    if Same(x.Minus(y), Zero) {
      SameShift(x.Minus(y), Zero, y);
      assert x.Minus(y).Plus(y) == x && Zero.Plus(y) == y;
    }
  }
}
