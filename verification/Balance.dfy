/**
 * Why the checks of the backward pass succeed, and what they guarantee: each node's fee output and
 * kernel move the balance from the commitments after its hop to the commitments before it.
 */
module Balance {
  import opened Curve
  import opened Sums
  import opened Mweb
  import opened SwapSpec

  lemma NextNames(peel: Peeler, c: Point, o: OnionEtc)
    requires Peels(peel, o)
    ensures var hop := HopOf(peel, o);
            Same(Open(Next(peel, c, o)), Open(c).Plus(Vec(hop.kernelBlind, 0 - hop.fee)))
    ensures Same(Open(NextStealth(peel, o)), Open(o.stealthSum).Plus(Vec(HopOf(peel, o).stealthBlind, 0)))
  {
    var hop := HopOf(peel, o);
    OpenNames(c);
    OpenNames(o.stealthSum);
    AddNames(Open(c), Vec(hop.kernelBlind, 0));
    SubNames(Open(c).Plus(Vec(hop.kernelBlind, 0)), Vec(0, hop.fee));
    AddNames(Open(o.stealthSum), Vec(hop.stealthBlind, 0));
    OpenSame(Open(c).Plus(Vec(hop.kernelBlind, 0 - hop.fee)));
    OpenSame(Open(o.stealthSum).Plus(Vec(hop.stealthBlind, 0)));
  }

  function MovedVec(peel: Peeler, held: Held): Point -> Vec {
    (c: Point) => CommitVec(c).Plus(HopVec(peel, held)(c))
  }

  function MovedStealthVec(peel: Peeler, held: Held): Point -> Vec {
    (c: Point) => StealthVec(held)(c).Plus(StealthBlindVec(peel, held)(c))
  }

  /** All held commitments moved one hop further, summed. */
  lemma NextSum(peel: Peeler, held: Held)
    requires AllPeel(peel, held)
    ensures Same(SumSet(held.Keys, NextVec(peel, held)),
                 SumSet(held.Keys, CommitVec).Plus(SumSet(held.Keys, HopVec(peel, held))))
  {
    forall c | c in held.Keys ensures Same(NextVec(peel, held)(c), MovedVec(peel, held)(c)) {
      NextNames(peel, c, held[c]);
      assert HopVec(peel, held)(c) == Vec(HopOf(peel, held[c]).kernelBlind, 0 - HopOf(peel, held[c]).fee);
    }
    SumSetSame(held.Keys, NextVec(peel, held), MovedVec(peel, held));
    SumSetPlus(held.Keys, CommitVec, HopVec(peel, held), MovedVec(peel, held));
  }

  lemma NextStealthSum(peel: Peeler, held: Held)
    requires AllPeel(peel, held)
    ensures Same(SumSet(held.Keys, NextStealthVec(peel, held)),
                 SumSet(held.Keys, StealthVec(held)).Plus(SumSet(held.Keys, StealthBlindVec(peel, held))))
  {
    forall c | c in held.Keys ensures Same(NextStealthVec(peel, held)(c), MovedStealthVec(peel, held)(c)) {
      NextNames(peel, c, held[c]);
      assert StealthVec(held)(c) == Open(held[c].stealthSum);
    }
    SumSetSame(held.Keys, NextStealthVec(peel, held), MovedStealthVec(peel, held));
    SumSetPlus(held.Keys, StealthVec(held), StealthBlindVec(peel, held), MovedStealthVec(peel, held));
  }

  /** Hop fees are not negative, and each is part of the total. */
  lemma {:induction false} FeeSumBound(peel: Peeler, held: Held, s: set<Point>)
    ensures SumSet(s, HopVec(peel, held)).v <= 0
  {
    if s != {} {
      var c :| c in s;
      SumSetRemove(s, c, HopVec(peel, held));
      FeeSumBound(peel, held, s - {c});
    }
  }

  lemma FeeTotalNat(peel: Peeler, held: Held)
    ensures FeeTotal(peel, held) >= 0
  {
    FeeSumBound(peel, held, held.Keys);
  }

  /** The names of the node's own output and kernel. */
  lemma OwnNames(hopBlind: int, stealthBlind: int, value: nat, fee: nat, senderKey: Bytes32)
    ensures var (own, mask) := OwnOutput(value, senderKey);
            var kernel := OwnKernel(hopBlind, stealthBlind, value, fee, senderKey);
            var blind := BlindSwitch(mask, value);
            && Same(OutputVec(own), Vec(blind, value))
            && Same(KernelVec(kernel), Vec(hopBlind + blind, 0 - fee))
            && Same(SenderVec(own), Vec(senderKey, 0))
            && Same(StealthExcessVec(kernel), Vec(stealthBlind + senderKey, 0))
  {
    var blind := BlindSwitch(OwnOutput(value, senderKey).1, value);
    OpenSame(Vec(blind, value));
    KernelName(hopBlind + blind, fee);
    OpenSame(Vec(senderKey, 0));
    OpenSame(Vec(stealthBlind + senderKey, 0));
  }

  lemma KernelName(blind: int, fee: nat)
    ensures Same(Open(NewCommitment(blind, 0)).Minus(Vec(0, fee)), Vec(blind, 0 - fee))
  {
    OpenSame(Vec(blind, 0));
    SameMinus(Open(NewCommitment(blind, 0)), Vec(blind, 0), Vec(0, fee), Vec(0, fee));
  }

  /** The arithmetic of one step, on names alone. */
  lemma StepAlgebra(o: Vec, k: Vec, c: Vec, h: Vec, nx: Vec, own: Vec, kern: Vec, blind: int, paid: int, fee: int)
    requires Same(nx, c.Plus(h)) && Same(o.Minus(nx), k)
    requires Same(own, Vec(blind, paid)) && Same(kern, Vec(h.g + blind, 0 - fee))
    ensures Same(o.Plus(own), c.Plus(k.Plus(kern))) <==> Same(Vec(0, h.v + paid + fee), Zero)
  {
    SamePlus(o.Minus(nx), k, nx, c.Plus(h));
    assert o.Minus(nx).Plus(nx) == o;
    SamePlus(o, k.Plus(c.Plus(h)), own, Vec(blind, paid));
    SamePlus(c.Plus(k), c.Plus(k), kern, Vec(h.g + blind, 0 - fee));
    assert c.Plus(k.Plus(kern)) == c.Plus(k).Plus(kern);
    var left, right := k.Plus(c.Plus(h)).Plus(Vec(blind, paid)), c.Plus(k).Plus(Vec(h.g + blind, 0 - fee));
    SameDifference(left, right);
    assert left.Minus(right) == Vec(0, h.v + paid + fee);
  }

  /** One step with the sums over held onions as given combinations. */
  lemma StepCore(
    gap: int, c: Vec, h: Vec, nx: Vec, stealthBlind: int, value: nat, fee: nat, senderKey: Bytes32,
    outputs: seq<MwebOutput>, kernels: seq<MwebKernel>, outputs': seq<MwebOutput>, kernels': seq<MwebKernel>)
    requires Appended(h.g, stealthBlind, value, fee, senderKey, outputs, kernels, outputs', kernels')
    requires Same(nx, c.Plus(h)) && Same(SumSeq(outputs, OutputVec).Minus(nx), SumSeq(kernels, KernelVec))
    requires gap == 0 - h.v - value - fee
    ensures Same(SumSeq(outputs', OutputVec), c.Plus(SumSeq(kernels', KernelVec))) <==> Settles(gap)
  {
    hide SumSeq, SortedByHash, CreateOutput;
    var (own, mask) := OwnOutput(value, senderKey);
    var kernel := OwnKernel(h.g, stealthBlind, value, fee, senderKey);
    SumSeqGrow(outputs, own, outputs', OutputVec);
    SumSeqSnoc(kernels, kernel, KernelVec);
    OwnNames(h.g, stealthBlind, value, fee, senderKey);
    StepAlgebra(SumSeq(outputs, OutputVec), SumSeq(kernels, KernelVec), c, h, nx,
                OutputVec(own), KernelVec(kernel), BlindSwitch(mask, value), value, fee);
    SameNegate(h.v + value + fee);
  }

  /**
   * One node of the backward pass: what passed its commitment check becomes balanced against the
   * commitments it holds. This is exact: it holds if and only if what the onions paid and what the
   * node shares out (its output's value and its fee) differ by nothing, or by a multiple of H that
   * is the identity.
   */
  lemma CommitStep(
    gap: int, peel: Peeler, held: Held, value: nat, fee: nat, senderKey: Bytes32,
    outputs: seq<MwebOutput>, kernels: seq<MwebKernel>, outputs': seq<MwebOutput>, kernels': seq<MwebKernel>)
    requires AllPeel(peel, held)
    requires CommitCheck(peel, held, outputs, kernels)
    requires Leaves(peel, held, value, fee, senderKey, outputs, kernels, outputs', kernels')
    requires gap == FeeTotal(peel, held) - value - fee
    ensures Balanced(held, outputs', kernels') <==> Settles(gap)
  {
    NextSum(peel, held);
    StepCore(gap, SumSet(held.Keys, CommitVec), SumSet(held.Keys, HopVec(peel, held)),
      SumSet(held.Keys, NextVec(peel, held)), SumSet(held.Keys, StealthBlindVec(peel, held)).g, value, fee,
      senderKey, outputs, kernels, outputs', kernels');
  }

  /** The gap is zero, or a multiple of H that is the identity. */
  predicate Settles(gap: int) {
    Same(Vec(0, gap), Zero)
  }

  lemma SameNegate(v: int)
    ensures Same(Vec(0, v), Zero) <==> Same(Vec(0, 0 - v), Zero)
  {
    SameDifference(Zero, Vec(0, v));
    assert Zero.Minus(Vec(0, v)) == Vec(0, 0 - v);
  }

  lemma StealthAlgebra(o: Vec, k: Vec, c: Vec, b: Vec, nx: Vec, own: Vec, excess: Vec, senderKey: int)
    requires Same(nx, c.Plus(b)) && Same(o.Minus(nx), k) && b.v == 0
    requires Same(own, Vec(senderKey, 0)) && Same(excess, Vec(b.g + senderKey, 0))
    ensures Same(o.Plus(own), c.Plus(k.Plus(excess)))
  {
    SamePlus(o.Minus(nx), k, nx, c.Plus(b));
    assert o.Minus(nx).Plus(nx) == o;
    SamePlus(o, k.Plus(c.Plus(b)), own, Vec(senderKey, 0));
    SamePlus(c.Plus(k), c.Plus(k), excess, Vec(b.g + senderKey, 0));
    assert c.Plus(k.Plus(excess)) == c.Plus(k).Plus(excess);
    assert k.Plus(c.Plus(b)).Plus(Vec(senderKey, 0)) == c.Plus(k).Plus(Vec(b.g + senderKey, 0));
  }

  lemma StealthCore(
    c: Vec, b: Vec, nx: Vec, hopBlind: int, value: nat, fee: nat, senderKey: Bytes32,
    outputs: seq<MwebOutput>, kernels: seq<MwebKernel>, outputs': seq<MwebOutput>, kernels': seq<MwebKernel>)
    requires Appended(hopBlind, b.g, value, fee, senderKey, outputs, kernels, outputs', kernels') && b.v == 0
    requires Same(nx, c.Plus(b)) && Same(SumSeq(outputs, SenderVec).Minus(nx), SumSeq(kernels, StealthExcessVec))
    ensures Same(SumSeq(outputs', SenderVec), c.Plus(SumSeq(kernels', StealthExcessVec)))
  {
    var own := OwnOutput(value, senderKey).0;
    var kernel := OwnKernel(hopBlind, b.g, value, fee, senderKey);
    SumSeqGrow(outputs, own, outputs', SenderVec);
    SumSeqSnoc(kernels, kernel, StealthExcessVec);
    OwnNames(hopBlind, b.g, value, fee, senderKey);
    StealthAlgebra(SumSeq(outputs, SenderVec), SumSeq(kernels, StealthExcessVec), c, b, nx,
                   SenderVec(own), StealthExcessVec(kernel), senderKey);
  }

  /** The same step for the stealth keys, where nothing can overflow. */
  lemma StealthStep(
    peel: Peeler, held: Held, value: nat, fee: nat, senderKey: Bytes32,
    outputs: seq<MwebOutput>, kernels: seq<MwebKernel>, outputs': seq<MwebOutput>, kernels': seq<MwebKernel>)
    requires AllPeel(peel, held)
    requires StealthCheck(peel, held, outputs, kernels)
    requires Leaves(peel, held, value, fee, senderKey, outputs, kernels, outputs', kernels')
    ensures StealthBalanced(held, outputs', kernels')
  {
    NextStealthSum(peel, held);
    StealthBlindFlat(peel, held, held.Keys);
    StealthCore(SumSet(held.Keys, StealthVec(held)), SumSet(held.Keys, StealthBlindVec(peel, held)),
                SumSet(held.Keys, NextStealthVec(peel, held)),
                SumSet(held.Keys, HopVec(peel, held)).g, value, fee, senderKey,
                outputs, kernels, outputs', kernels');
  }

  lemma {:induction false} StealthBlindFlat(peel: Peeler, held: Held, s: set<Point>)
    ensures SumSet(s, StealthBlindVec(peel, held)).v == 0
  {
    if s != {} {
      var c :| c in s;
      SumSetRemove(s, c, StealthBlindVec(peel, held));
      StealthBlindFlat(peel, held, s - {c});
    }
  }

  /**
   * The two checks at this node say exactly that what arrived is balanced against what the next node
   * holds, when the onions kept here are in one-to-one agreement with it.
   */
  lemma ChecksExact(peel: Peeler, held: Held, next: Held, outputs: seq<MwebOutput>, kernels: seq<MwebKernel>)
    requires AllPeel(peel, held) && Linked(peel, held, next)
    ensures CommitCheck(peel, held, outputs, kernels) <==> Balanced(next, outputs, kernels)
    ensures StealthCheck(peel, held, outputs, kernels) <==> StealthBalanced(next, outputs, kernels)
  {
    LinkedSums(peel, held, next);
    hide Linked, SumSet, SumSeq;
    CheckAlgebra(SumSeq(outputs, OutputVec), SumSeq(kernels, KernelVec), SumSet(next.Keys, CommitVec));
    CheckAlgebra(SumSeq(outputs, SenderVec), SumSeq(kernels, StealthExcessVec), SumSet(next.Keys, StealthVec(next)));
  }

  lemma CheckAlgebra(o: Vec, k: Vec, c: Vec)
    ensures Same(o.Minus(c), k) <==> Same(o, c.Plus(k))
  {
    if Same(o, c.Plus(k)) {
      SameMinus(o, c.Plus(k), c, c);
      assert c.Plus(k).Minus(c) == k;
    }
    if Same(o.Minus(c), k) {
      SamePlus(o.Minus(c), k, c, c);
      assert o.Minus(c).Plus(c) == o && k.Plus(c) == c.Plus(k);
    }
  }

  /** What the next node holds sums to this node's commitments moved one hop further. */
  lemma LinkedSums(peel: Peeler, held: Held, next: Held)
    requires AllPeel(peel, held) && Linked(peel, held, next)
    ensures SumSet(held.Keys, NextVec(peel, held)) == SumSet(next.Keys, CommitVec)
    ensures SumSet(held.Keys, NextStealthVec(peel, held)) == SumSet(next.Keys, StealthVec(next))
  {
    hide SumSet, Injective, Image;
    var nexts: map<Point, Point> := map c | c in held :: Next(peel, c, held[c]);
    NextsImage(peel, held, nexts);
    SumImage(nexts, NextVec(peel, held), CommitVec);
    SumImage(nexts, NextStealthVec(peel, held), StealthVec(next));
  }

  lemma LinkedCount(peel: Peeler, held: Held, next: Held)
    requires AllPeel(peel, held) && Linked(peel, held, next)
    ensures |held| == |next|
  {
    var nexts: map<Point, Point> := map c | c in held :: Next(peel, c, held[c]);
    NextsImage(peel, held, nexts);
    SumImage(nexts, _ => Zero, _ => Zero);
    assert |next| == |next.Keys| == |NextKeys(peel, held)|;
  }

  lemma NextsImage(peel: Peeler, held: Held, nexts: map<Point, Point>)
    requires AllPeel(peel, held) && OneToOne(peel, held)
    requires nexts == map c | c in held :: Next(peel, c, held[c])
    ensures nexts.Keys == held.Keys && |nexts| == |held|
    ensures Image(nexts) == NextKeys(peel, held)
    ensures Injective(nexts)
  {
    assert nexts.Keys == held.Keys;
    assert |nexts| == |nexts.Keys| && |held| == |held.Keys|;
  }

  lemma {:induction false} SumSeqMap<T, U>(s: seq<T>, t: seq<U>, f: T -> Vec, g: U -> Vec)
    requires |s| == |t| && forall i :: 0 <= i < |s| ==> f(s[i]) == g(t[i])
    ensures SumSeq(s, f) == SumSeq(t, g)
  {
    if s != [] {
      SumSeqMap(s[1..], t[1..], f, g);
    }
  }

  /** At the last node the destination outputs pass both checks before any kernel exists. */
  lemma LastChecksPass(
    node: Node, all: Held, held: Held, out: Held, outputs: seq<MwebOutput>, order: seq<Point>)
    requires PeelOutcome(node, all, held, out, outputs, order) && node.Last()
    ensures CommitCheck(node.peel, held, outputs, []) && StealthCheck(node.peel, held, outputs, [])
    ensures |outputs| == |held|
  {
    var peel := node.peel;
    SumSeqMap(outputs, order, OutputVec, NextVec(peel, held));
    SumSeqMap(outputs, order, SenderVec, NextStealthVec(peel, held));
    VisitsElements(order, held.Keys);
    SumVisit(order, held.Keys, NextVec(peel, held));
    SumVisit(order, held.Keys, NextStealthVec(peel, held));
  }

  /* The transaction */

  function InputVec(i: MwebInput): Vec { Open(i.commitment) }
  function InputStealthVec(i: MwebInput): Vec { Open(i.outputPubKey).Minus(Open(i.inputPubKey)) }

  /** Sum of outputs = sum of inputs + sum of kernel excesses less kernel fees times H. */
  ghost predicate TxBalanced(tx: MwebTx) {
    Same(SumSeq(tx.outputs, OutputVec), SumSeq(tx.inputs, InputVec).Plus(SumSeq(tx.kernels, KernelVec)))
  }

  /** Sum of sender keys = sum of (output key - input key) of the inputs + sum of stealth excesses. */
  ghost predicate TxStealthBalanced(tx: MwebTx) {
    Same(SumSeq(tx.outputs, SenderVec), SumSeq(tx.inputs, InputStealthVec).Plus(SumSeq(tx.kernels, StealthExcessVec)))
  }

  lemma {:induction false} SumSeqSame<T, U>(s: seq<T>, t: seq<U>, f: T -> Vec, g: U -> Vec)
    requires |s| == |t| && forall i :: 0 <= i < |s| ==> Same(f(s[i]), g(t[i]))
    ensures Same(SumSeq(s, f), SumSeq(t, g))
  {
    if s != [] {
      SumSeqSame(s[1..], t[1..], f, g);
      SamePlus(f(s[0]), g(t[0]), SumSeq(s[1..], f), SumSeq(t[1..], g));
    }
  }

  /** The inputs of a transaction sum to the commitments and stealth sums of the held onions. */
  lemma SpendsSums(held: Held, inputs: seq<MwebInput>, order: seq<Point>)
    requires KeyedByInput(held) && SpendsInOrder(held, inputs, order)
    ensures SumSeq(inputs, InputVec) == SumSet(held.Keys, CommitVec)
    ensures Same(SumSeq(inputs, InputStealthVec), SumSet(held.Keys, StealthVec(held)))
    ensures |inputs| == |held|
  {
    VisitsElements(order, held.Keys);
    SumVisit(order, held.Keys, CommitVec);
    SumVisit(order, held.Keys, StealthVec(held));
    forall i | 0 <= i < |order|
      ensures InputVec(inputs[i]) == CommitVec(order[i])
      ensures Same(InputStealthVec(inputs[i]), StealthVec(held)(order[i]))
    {
      OpenSame(InputStealthVec(inputs[i]));
    }
    SumSeqMap(inputs, order, InputVec, CommitVec);
    SumSeqSame(inputs, order, InputStealthVec, StealthVec(held));
  }

  /** Balance against the held onions is balance against the inputs that the transaction spends. */
  lemma SpendsBalance(held: Held, tx: MwebTx)
    requires KeyedByInput(held) && Spends(held, tx.inputs)
    ensures Balanced(held, tx.outputs, tx.kernels) <==> TxBalanced(tx)
    ensures StealthBalanced(held, tx.outputs, tx.kernels) <==> TxStealthBalanced(tx)
    ensures |tx.inputs| == |held|
  {
    var order :| SpendsInOrder(held, tx.inputs, order);
    SpendsSums(held, tx.inputs, order);
    var e := SumSeq(tx.kernels, StealthExcessVec);
    SamePlus(SumSeq(tx.inputs, InputStealthVec), SumSet(held.Keys, StealthVec(held)), e, e);
  }

  /* Fewer onions are still held under their inputs' commitments */

  lemma PartKeyed(held: Held, all: Held)
    requires Part(held, all) && KeyedByInput(all)
    ensures KeyedByInput(held)
  {
  }

  lemma PeelKeepsKeys(
    node: Node, all: Held, held: Held, out: Held, outputs: seq<MwebOutput>, order: seq<Point>)
    requires PeelOutcome(node, all, held, out, outputs, order)
    ensures AllPeel(node.peel, held)
    ensures KeyedByInput(all) ==> KeyedByInput(held)
    ensures !node.Last() ==> outputs == []
  {
    hide Passes, Linked, Covered, Outputs;
  }

  lemma KeptPart(peel: Peeler, all: Held, commits: seq<Point>)
    requires AllPeel(peel, all)
    ensures AllPeel(peel, Kept(peel, all, commits))
    ensures KeyedByInput(all) ==> KeyedByInput(Kept(peel, all, commits))
  {
  }
}
