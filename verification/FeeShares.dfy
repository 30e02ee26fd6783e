/** The arithmetic of the fee shares, over unbounded numbers. */
module FeeShares {
  import opened Mweb
  import opened SwapSpec

  /** What the chain asks for a transaction of that many outputs and kernels. */
  function WeightFee(nOutputs: nat, nKernels: nat): nat {
    nOutputs * StandardOutputWeight * BaseMwebFee + nKernels * (KernelWithStealthWeight * BaseMwebFee)
  }

  lemma RoundedUp(x: nat, n: nat)
    requires n > 0
    ensures x <= n * ((x + n - 1) / n) <= x + n - 1
  {
    var q, r := (x + n - 1) / n, (x + n - 1) % n;
    assert x + n - 1 == n * q + r;
  }

  lemma FeeSharePositive(nOutputs: nat, n: nat)
    requires n > 0
    ensures FeeShare(nOutputs, n) > 0
  {
    var x := nOutputs * StandardOutputWeight * BaseMwebFee;
    RoundedUp(x, n);
    assert (x + n - 1) / n >= 0;
    assert KernelWithStealthWeight * BaseMwebFee > 0;
  }

  /** n equal shares pay for m + n outputs and n kernels, with less than n satoshi to spare. */
  lemma SharesCover(m: nat, n: nat)
    requires n > 0
    ensures WeightFee(m + n, n) <= n * FeeShare(m + n, n) <= WeightFee(m + n, n) + n - 1
  {
    var x := (m + n) * StandardOutputWeight * BaseMwebFee;
    var k := KernelWithStealthWeight * BaseMwebFee;
    RoundedUp(x, n);
    assert n * ((x + n - 1) / n + k) == n * ((x + n - 1) / n) + n * k;
  }

  /** The rounded-up quotient is the least b with x <= n * b. */
  lemma CeilLeast(x: nat, b: nat, n: nat)
    requires n > 0 && x <= n * b
    ensures (x + n - 1) / n <= b
  {
    var a, r := (x + n - 1) / n, (x + n - 1) % n;
    assert x + n - 1 == n * a + r;
    if a > b {
      MulMonotone(n, a, b + 1);
    }
  }

  lemma CeilScales(x: nat, m: nat, n: nat)
    requires n > 0
    ensures (m * x + n - 1) / n <= m * ((x + n - 1) / n)
  {
    var a := (x + n - 1) / n;
    RoundedUp(x, n);
    MulMonotone(m, n * a, x);
    assert m * (n * a) == n * (m * a);
    CeilLeast(m * x, m * a, n);
  }

  /**
   * The floor scales: a hop fee that covers a node's share for a single onion covers it for any
   * number m of onions that each pay that fee, although every share is rounded up.
   */
  lemma FloorScales(f: nat, m: nat, n: nat)
    requires n > 0 && m > 0
    requires f >= FeeShare(1 + n, n)
    ensures m * f >= FeeShare(m + n, n)
  {
    var k := KernelWithStealthWeight * BaseMwebFee;
    var one := (1 + n) * StandardOutputWeight * BaseMwebFee;
    var all := (m + n) * StandardOutputWeight * BaseMwebFee;
    Regroup(1 + n, StandardOutputWeight, BaseMwebFee);
    Regroup(m + n, StandardOutputWeight, BaseMwebFee);
    ScaledWeight(m, n, StandardOutputWeight * BaseMwebFee);
    ScaledShare(all, one, k, f, m, n);
  }

  lemma ScaledShare(all: nat, one: nat, k: nat, f: nat, m: nat, n: nat)
    requires n > 0 && m > 0 && all <= m * one
    requires f >= (one + n - 1) / n + k
    ensures m * f >= (all + n - 1) / n + k
  {
    var share := (one + n - 1) / n;
    CeilScales(one, m, n);
    RoundedUp(m * one, n);
    CeilLeast(all, (m * one + n - 1) / n, n);
    MulMonotone(m, f, share + k);
    assert m * (share + k) == m * share + m * k;
    MulMonotone(k, m, 1);
  }

  lemma Regroup(a: nat, b: nat, c: nat)
    ensures a * b * c == a * (b * c)
  {
  }

  lemma ScaledWeight(m: nat, n: nat, w: nat)
    requires m > 0
    ensures (m + n) * w <= m * ((1 + n) * w)
  {
    assert m * ((1 + n) * w) == (m + m * n) * w;
    MulMonotone(n, m, 1);
    MulMonotone(w, m + m * n, m + n);
  }

  lemma MulMonotone(a: nat, b: int, c: int)
    requires b >= c
    ensures a * b >= a * c
  {
  }
}
