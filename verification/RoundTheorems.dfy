/** What the round protocol guarantees to its users: consequences of the round's invariant. */
module RoundTheorems {
  import opened Bytes
  import opened Curve
  import opened Sums
  import opened Mweb
  import opened SwapSpec
  import opened Balance
  import opened FeeShares
  import opened Round

  /** Node fees as the source computes them. */
  ghost predicate SourceShares(nodes: seq<Node>)
    requires nodes != []
  {
    nodes[0].share == ShareAmong(|nodes|)
  }

  /** The nodes of one list of peers, each computing fees as the source does, are a topology. */
  lemma SourceTopology(nodes: seq<Node>)
    requires nodes != []
    requires forall i :: 0 <= i < |nodes| ==>
      nodes[i].index == i && nodes[i].count == |nodes| && nodes[i].share == ShareAmong(|nodes|)
    ensures Topology(nodes) && SourceShares(nodes)
  {
    forall k: nat ensures nodes[0].share(k) > 0 {
      FeeSharePositive(k, |nodes|);
    }
  }

  /** Sum of the fees that the kernels carry. */
  function KernelFees(kernels: seq<MwebKernel>): nat {
    if kernels == [] then 0 else kernels[0].fee + KernelFees(kernels[1..])
  }

  lemma {:induction false} EqualFees(kernels: seq<MwebKernel>, fee: nat)
    requires forall kernel :: kernel in kernels ==> kernel.fee == fee
    ensures KernelFees(kernels) == |kernels| * fee
  {
    if kernels != [] {
      EqualFees(kernels[1..], fee);
    }
  }

  /** The counts of a finished round. */
  lemma FinishedCounts(nodes: seq<Node>, held: seq<Held>, tx: MwebTx)
    requires Topology(nodes) && SourceShares(nodes) && |held| == |nodes| && DoneInv(nodes, held, tx)
    ensures forall j :: 0 <= j < |nodes| ==> |held[j]| == |held[0]|
    ensures |tx.outputs| == |held[0]| + |nodes| && |tx.kernels| == |nodes|
    ensures forall kernel :: kernel in tx.kernels ==> kernel.fee == FeeShare(|held[0]| + |nodes|, |nodes|)
    ensures Spends(held[0], tx.inputs) && StealthBalanced(held[0], tx.outputs, tx.kernels)
    ensures Balanced(held[0], tx.outputs, tx.kernels) <==> Settles(Lost(nodes[0].peel, held[0]))
    ensures forall j :: 0 < j < |nodes| ==> Settles(Lost(nodes[j].peel, held[j]))
  {
    hide Balanced, StealthBalanced, Spends, FeeShare, PeeledAt, LinkedAt, Settles, Lost;
    forall j | 0 <= j < |nodes| ensures |held[j]| == |held[0]| {
      assert CountAt(held, j, |held[0]|);
    }
    forall j | 0 < j < |nodes| ensures Settles(Lost(nodes[j].peel, held[j])) {
      assert SettledAt(nodes, held, j);
    }
  }

  /** Equal shares pay for the transaction's weight. */
  lemma FinishedFees(kernels: seq<MwebKernel>, m: nat, n: nat)
    requires n > 0 && |kernels| == n && forall kernel :: kernel in kernels ==> kernel.fee == FeeShare(m + n, n)
    ensures WeightFee(m + n, n) <= KernelFees(kernels) < WeightFee(m + n, n) + n
  {
    hide WeightFee, FeeShare;
    EqualFees(kernels, FeeShare(m + n, n));
    SharesCover(m, n);
  }

  /**
   * A finished round: m of the loaded onions survive at every node; the transaction spends exactly
   * their inputs, has m + n outputs and n kernels, and is balanced in the stealth keys; its kernel fees
   * pay its weight with less than n satoshi to spare. It is balanced in value if and only if the 64-bit
   * sum of node 0's fees lost nothing, or a multiple of H that is the identity; no other node's did more.
   */
  lemma FinishedTransaction(nodes: seq<Node>, loaded: Held, run: seq<State>, tx: MwebTx)
    requires Topology(nodes) && SourceShares(nodes) && KeyedByInput(loaded) && Run(nodes, loaded, run)
    requires run[|run| - 1].stage == Done(tx)
    ensures var held := run[|run| - 1].held;
            && |held| == |nodes|
            && Part(held[0], loaded) && Spends(held[0], tx.inputs)
            && (forall j :: 0 <= j < |nodes| ==> |held[j]| == |tx.inputs|)
    ensures |tx.outputs| == |tx.inputs| + |nodes| && |tx.kernels| == |nodes|
    ensures TxStealthBalanced(tx)
    ensures TxBalanced(tx) <==> Settles(Lost(nodes[0].peel, run[|run| - 1].held[0]))
    ensures forall j :: 0 < j < |nodes| ==> Settles(Lost(nodes[j].peel, run[|run| - 1].held[j]))
    ensures WeightFee(|tx.outputs|, |tx.kernels|) <= KernelFees(tx.kernels) <
      WeightFee(|tx.outputs|, |tx.kernels|) + |nodes|
  {
    hide Balanced, StealthBalanced, TxBalanced, TxStealthBalanced, Spends, WeightFee, FeeShare, DoneInv, Run,
      KeyedByInput, Part, Settles, Lost;
    RunNonempty(nodes, loaded, run);
    RunKeeps(nodes, loaded, run, |run| - 1);
    var held := run[|run| - 1].held;
    FinishedCounts(nodes, held, tx);
    PartKeyed(held[0], loaded);
    SpendsBalance(held[0], tx);
    FinishedFees(tx.kernels, |held[0]|, |nodes|);
  }

  /**
   * While the backward pass is at node i: all later nodes hold the same number m of onions, and the
   * message on its way to node i is read to the end: m commitments, m + n - (i + 1) outputs and one
   * kernel for each of the nodes after i.
   */
  lemma SurvivorsAgree(nodes: seq<Node>, loaded: Held, run: seq<State>, i: nat, message: Message)
    requires Topology(nodes) && Run(nodes, loaded, run)
    requires run[|run| - 1].stage == Backwarding(i, message)
    ensures var held := run[|run| - 1].held;
            && i + 1 < |nodes| == |held|
            && (forall j :: i < j < |nodes| ==> |held[j]| == |held[i + 1]|)
            && ReadBackward(nodes[i], message).Some?
            && var (commits, outputs, kernels) := ReadBackward(nodes[i], message).value;
               && |commits| == |held[i + 1]| >= 1
               && |outputs| == |held[i + 1]| + |nodes| - (i + 1)
               && |kernels| == |nodes| - (i + 1)
               && |message| == 2 + |outputs| + |kernels|
  {
    hide Balanced, StealthBalanced, ForwardedUpTo, Step, ReadBackward, Visits, Settles, Lost;
    assert run != [];
    RunKeeps(nodes, loaded, run, |run| - 1);
    var s := run[|run| - 1];
    forall j | i < j < |nodes| ensures |s.held[j]| == |s.held[i + 1]| {
      assert CountAt(s.held, j, |s.held[i + 1]|);
    }
    VisitsElements(ReadBackward(nodes[i], message).value.0, s.held[i + 1].Keys);
    assert |s.held[i + 1].Keys| == |s.held[i + 1]|;
  }

  /** Every one of these onions pays this node at least f. */
  ghost predicate AllPay(peel: Peeler, held: Held, f: nat) {
    forall c :: c in held ==> Peels(peel, held[c]) && HopOf(peel, held[c]).fee >= f
  }

  /** k times f, kept out of the solver's sight. */
  function Times(k: nat, f: nat): nat { k * f }

  lemma {:induction false} AllPaySum(peel: Peeler, held: Held, s: set<Point>, f: nat)
    requires AllPay(peel, held, f) && s <= held.Keys
    ensures 0 - SumSet(s, HopVec(peel, held)).v >= Times(|s|, f)
  {
    hide Times;
    if s == {} {
      TimesMore(0, f);
    } else {
      var c :| c in s;
      SumSetRemove(s, c, HopVec(peel, held));
      AllPaySum(peel, held, s - {c}, f);
      PaysOne(peel, held, c, f);
      TimesMore(|s - {c}|, f);
      hide *;
      assert |s| == |s - {c}| + 1;
    }
  }

  lemma PaysOne(peel: Peeler, held: Held, c: Point, f: nat)
    requires AllPay(peel, held, f) && c in held
    ensures 0 - HopVec(peel, held)(c).v >= f
  {
  }

  lemma TimesMore(k: nat, f: nat)
    ensures Times(0, f) == 0 && Times(k + 1, f) == Times(k, f) + f
  {
  }

  lemma AllPayTotal(peel: Peeler, held: Held, f: nat)
    requires AllPay(peel, held, f)
    ensures FeeTotal(peel, held) >= |held| * f
  {
    AllPaySum(peel, held, held.Keys, f);
    assert |held.Keys| == |held|;
  }

  /**
   * Why a round aborts: a peer cannot be reached; or where it stopped nothing survived, or some onion
   * pays less than the share of a transaction with a single onion, or the fees do not fit 64 bits; or
   * those of the next node do not.
   */
  lemma AbortNeedsShortfall(nodes: seq<Node>, loaded: Held, run: seq<State>, failure: Failure, i: nat)
    requires Topology(nodes) && SourceShares(nodes) && Run(nodes, loaded, run)
    requires run[|run| - 1].stage == Aborted(failure, i)
    ensures i < |nodes| == |run[|run| - 1].held|
    ensures var held := run[|run| - 1].held;
      match failure
      case InsufficientHopFees =>
        || |held[i]| == 0
        || !AllPay(nodes[i].peel, held[i], FeeShare(1 + |nodes|, |nodes|))
        || FeeTotal(nodes[i].peel, held[i]) >= U64
      case CommitInvariant => i + 1 < |nodes| && FeeTotal(nodes[i + 1].peel, held[i + 1]) >= U64
      case Unreachable => |nodes| > 1
      case _ => false
  {
    hide FeeShare, Run, FeeTotal, AllPay, Settles;
    assert run != [] by { RunNonempty(nodes, loaded, run); }
    RoundCompletes(nodes, loaded, run);
    var held := run[|run| - 1].held;
    var floor := FeeShare(1 + |nodes|, |nodes|);
    FitsLosesNothing(nodes[i].peel, held[i]);
    if i + 1 < |nodes| {
      FitsLosesNothing(nodes[i + 1].peel, held[i + 1]);
    }
    if |held[i]| > 0 && AllPay(nodes[i].peel, held[i], floor) {
      AllPayTotal(nodes[i].peel, held[i], floor);
      FloorScales(floor, |held[i]|, |nodes|);
    }
  }

  /** A sum of fees that fits 64 bits loses nothing. */
  lemma FitsLosesNothing(peel: Peeler, held: Held)
    ensures FeeTotal(peel, held) < U64 ==> Lost(peel, held) == 0 && Settles(Lost(peel, held))
    ensures FeeTotal(peel, held) < U64 ==> FeeTotal(peel, held) % U64 == FeeTotal(peel, held)
  {
    hide FeeTotal;
    FeeTotalNat(peel, held);
    if FeeTotal(peel, held) < U64 {
      NotWrapped(FeeTotal(peel, held));
    }
  }

  lemma RunNonempty(nodes: seq<Node>, loaded: Held, run: seq<State>)
    requires Topology(nodes) && Run(nodes, loaded, run)
    ensures run != []
  {
  }

  /**
   * Whatever the peers sent: when node 0 accepts a message and finishes, its transaction is balanced
   * in the stealth equation, and in the value equation if and only if no multiple of H was lost to
   * the 64-bit sum of the hop fees.
   */
  lemma AcceptedIsBalanced(node: Node, all: Held, message: Message, held: Held, outcome: Outcome)
    requires node.Placed() && node.index == 0 && KeyedByInput(all)
    requires BackwardStep(node, all, message, held, outcome) && outcome.Finalized?
    ensures TxStealthBalanced(outcome.tx)
    ensures TxBalanced(outcome.tx) <==> Settles(Lost(node.peel, held))
    ensures FeeTotal(node.peel, held) < U64 ==> TxBalanced(outcome.tx)
  {
    hide Balanced, StealthBalanced, CommitCheck, StealthCheck, TxBalanced, TxStealthBalanced, ReadBackward, Settled,
      FeeTotal, Kept, Settles;
    var (commits, outputs, kernels) := ReadBackward(node, message).value;
    KeptPart(node.peel, all, commits);
    SettledIsBalanced(node, held, FeeTotal(node.peel, held) % U64, node.share(|outputs| + node.index + 1),
      outputs, kernels, outcome);
    FitsLosesNothing(node.peel, held);
  }

  /** The same where node 0 is alone and finishes at once. */
  lemma AloneIsBalanced(node: Node, all: Held, held: Held, outcome: Outcome)
    requires node.index == 0 && node.Last() && KeyedByInput(all)
    requires ForwardOutcome(node, all, held, outcome) && outcome.Finalized?
    ensures TxStealthBalanced(outcome.tx)
    ensures TxBalanced(outcome.tx) <==> Settles(Lost(node.peel, held))
  {
    hide KeyedByInput, CommitCheck, StealthCheck, TxBalanced, TxStealthBalanced, Settled, FeeTotal, Settles,
      PeelOutcome;
    var out, outputs, order :|
      PeelOutcome(node, all, held, out, outputs, order) && BackwardOutcome(node, held, outputs, [], outcome);
    LastChecksPass(node, all, held, out, outputs, order);
    PeelKeepsKeys(node, all, held, out, outputs, order);
    SettledIsBalanced(node, held, FeeTotal(node.peel, held) % U64, node.share(|outputs| + node.index + 1),
      outputs, [], outcome);
  }

  lemma SettledIsBalanced(
    node: Node, held: Held, earned: nat, fee: nat, outputs: seq<MwebOutput>, kernels: seq<MwebKernel>,
    outcome: Outcome)
    requires node.index == 0 && KeyedByInput(held) && AllPeel(node.peel, held) && outcome.Finalized?
    requires CommitCheck(node.peel, held, outputs, kernels) && StealthCheck(node.peel, held, outputs, kernels)
    requires Settled(node, held, earned, fee, outputs, kernels, outcome)
    ensures TxStealthBalanced(outcome.tx)
    ensures TxBalanced(outcome.tx) <==> Settles(FeeTotal(node.peel, held) - earned)
  {
    hide Balanced, StealthBalanced, CommitCheck, StealthCheck, TxBalanced, TxStealthBalanced, Leaves, Spends,
      AllPeel, FeeTotal;
    var value := earned - fee;
    var senderKey, outputs', kernels' :|
      Leaves(node.peel, held, value, fee, senderKey, outputs, kernels, outputs', kernels')
      && Delivers(node, held, outputs', kernels', outcome);
    CommitStep(FeeTotal(node.peel, held) - earned, node.peel, held, value, fee, senderKey, outputs, kernels,
      outputs', kernels');
    StealthStep(node.peel, held, value, fee, senderKey, outputs, kernels, outputs', kernels');
    SpendsBalance(held, outcome.tx);
  }

  /**
   * Overflow is caught, exactly: when node i + 1 finished and node i agrees with it on the survivors,
   * node i's commitment check passes if and only if the fees that node i + 1 summed in 64 bits lost
   * nothing, up to a multiple of H that is the identity; the stealth check passes in any case.
   */
  lemma OverflowIsCaught(
    prev: Node, held: Held, node: Node, next: Held, outputs: seq<MwebOutput>, kernels: seq<MwebKernel>,
    value: nat, fee: nat, senderKey: Bytes32, outputs': seq<MwebOutput>, kernels': seq<MwebKernel>)
    requires AllPeel(prev.peel, held) && Linked(prev.peel, held, next) && AllPeel(node.peel, next)
    requires CommitCheck(node.peel, next, outputs, kernels) && StealthCheck(node.peel, next, outputs, kernels)
    requires value + fee == FeeTotal(node.peel, next) % U64
    requires Leaves(node.peel, next, value, fee, senderKey, outputs, kernels, outputs', kernels')
    ensures CommitCheck(prev.peel, held, outputs', kernels')
       <==> Settles(Lost(node.peel, next))
    ensures StealthCheck(prev.peel, held, outputs', kernels')
  {
    hide Balanced, StealthBalanced, CommitCheck, StealthCheck, Leaves, Linked, FeeTotal, Settles, AllPeel;
    var gap := Lost(node.peel, next);
    CommitStep(gap, node.peel, next, value, fee, senderKey, outputs, kernels, outputs', kernels');
    StealthStep(node.peel, next, value, fee, senderKey, outputs, kernels, outputs', kernels');
    ChecksExact(prev.peel, held, next, outputs', kernels');
  }

  /** The next commitments of the onions that pass the peel, position and output checks. */
  ghost function PassingKeys(node: Node, all: Held): set<Point> {
    set c | c in all && Passes(node, c, all[c]) :: Next(node.peel, c, all[c])
  }

  /**
   * The peel does not depend on the order in which the map is visited: any two outcomes for the same
   * onions pass on the same commitments, namely those of the onions that pass the peel, position and
   * output checks, and keep the same number of onions, one for each commitment passed on.
   */
  lemma PeelOrderIrrelevant(
    node: Node, all: Held, held: Held, out: Held, outputs: seq<MwebOutput>, order: seq<Point>,
    held': Held, out': Held, outputs': seq<MwebOutput>, order': seq<Point>)
    requires PeelOutcome(node, all, held, out, outputs, order)
    requires PeelOutcome(node, all, held', out', outputs', order')
    ensures out.Keys == out'.Keys == PassingKeys(node, all)
    ensures |held| == |held'| == |out|
    ensures node.Last() ==> |outputs| == |outputs'| == |out|
  {
    PeelKeys(node, all, held, out, outputs, order);
    PeelKeys(node, all, held', out', outputs', order');
    hide PeelOutcome;
    assert |out.Keys| == |out| && |out'.Keys| == |out'|;
  }

  /** Keys have one order. */
  lemma {:induction false} AscendingUnique(a: seq<Point>, b: seq<Point>, keys: set<Point>)
    requires Ascending(a, keys) && Ascending(b, keys)
    ensures a == b
  {
    VisitsElements(a, keys);
    VisitsElements(b, keys);
    if a != [] {
      var last := |a| - 1;
      assert a[last] in b && b[last] in a;
      assert a[last] == b[last];
      AscendingFront(a, keys);
      AscendingFront(b, keys);
      AscendingUnique(a[..last], b[..last], keys - {a[last]});
      assert a == a[..last] + [a[last]] && b == b[..last] + [b[last]];
    }
  }

  lemma VisitsFront(a: seq<Point>, keys: set<Point>)
    requires Visits(a, keys) && a != []
    ensures Visits(a[..|a| - 1], keys - {a[|a| - 1]}) && a[|a| - 1] in keys
  {
    VisitsElements(a, keys);
    var last := |a| - 1;
    var front, x := a[..last], a[last];
    assert a == front + [x];
    assert x in a;
    assert multiset(a) == multiset(front) + multiset{x};
    assert multiset(keys - {x}) == multiset(keys) - multiset{x};
  }

  lemma AscendingFront(a: seq<Point>, keys: set<Point>)
    requires Ascending(a, keys) && a != []
    ensures Ascending(a[..|a| - 1], keys - {a[|a| - 1]})
  {
    hide Visits;
    VisitsFront(a, keys);
    VisitsElements(a[..|a| - 1], keys - {a[|a| - 1]});
  }

  /** No two onions that pass go to one commitment. */
  ghost predicate PassingApart(node: Node, all: Held) {
    forall c, d, to :: PassesTo(node, all, c, to) && PassesTo(node, all, d, to) ==> c == d
  }

  ghost predicate PassesTo(node: Node, all: Held, c: Point, to: Point) {
    c in all && Passes(node, c, all[c]) && Next(node.peel, c, all[c]) == to
  }

  /**
   * What a node passes on does not depend on the order in which its map is visited: always the same
   * commitments in the same order, and without collisions the same message.
   */
  lemma ForwardDetermined(node: Node, all: Held, held: Held, held': Held, m: Message, m': Message)
    requires node.Placed() && !node.Last()
    requires ForwardOutcome(node, all, held, SendForward(m)) && ForwardOutcome(node, all, held', SendForward(m'))
    ensures m != [] && m' != [] && m[0] == m'[0]
    ensures PassingApart(node, all) ==> m == m' && held == held'
  {
    hide PeelOutcome, Passes, Visits;
    var out, outputs, order :|
      PeelOutcome(node, all, held, out, outputs, order) && SendsOn(out, SendForward(m));
    var out', outputs', order' :|
      PeelOutcome(node, all, held', out', outputs', order') && SendsOn(out', SendForward(m'));
    var commits :| Ascending(commits, out.Keys) && m == ForwardMessage(commits, Pick(out, commits));
    var commits' :| Ascending(commits', out'.Keys) && m' == ForwardMessage(commits', Pick(out', commits'));
    PeelOrderIrrelevant(node, all, held, out, outputs, order, held', out', outputs', order');
    AscendingUnique(commits, commits', out.Keys);
    if PassingApart(node, all) {
      PeelUnique(node, all, held, out, outputs, order, held', out', outputs', order');
    }
  }

  lemma PeelUnique(
    node: Node, all: Held, held: Held, out: Held, outputs: seq<MwebOutput>, order: seq<Point>,
    held': Held, out': Held, outputs': seq<MwebOutput>, order': seq<Point>)
    requires PeelOutcome(node, all, held, out, outputs, order) && PassingApart(node, all)
    requires PeelOutcome(node, all, held', out', outputs', order')
    ensures held == held' && out == out'
  {
    hide Passes, Next, NextOnion, Visits, Outputs, OneToOne;
    PassingKept(node, all, held, out);
    PassingKept(node, all, held', out');
    assert held == held';
    forall d | d in out ensures d in out' && out'[d] == out[d] {
      assert d in NextKeys(node.peel, held);
    }
    assert out.Keys == out'.Keys;
  }

  /** Without collisions exactly the onions that pass are kept. */
  lemma PassingKept(node: Node, all: Held, held: Held, out: Held)
    requires Survive(node, all, held) && AllPeel(node.peel, held) && Linked(node.peel, held, out)
    requires Covered(node, all, out) && PassingApart(node, all)
    ensures forall c :: c in held <==> c in all && Passes(node, c, all[c])
    ensures forall c :: c in held ==> held[c] == all[c]
  {
    hide OutputAccepted, Next, NextOnion, OneToOne;
    forall c | c in all && Passes(node, c, all[c]) ensures c in held {
      assert Next(node.peel, c, all[c]) in NextKeys(node.peel, held);
      var h :| h in held && Next(node.peel, h, held[h]) == Next(node.peel, c, all[c]);
      assert PassesTo(node, all, h, Next(node.peel, c, all[c])) && PassesTo(node, all, c, Next(node.peel, c, all[c]));
    }
  }

  /**
   * What the last checks of a peel let through: the onion opened under the node's key, carries an output
   * at the last node and only there, and that output is under the commitment and the sender key that the
   * layers lead to, with proofs that verify.
   */
  lemma SurvivorsChecked(
    node: Node, all: Held, held: Held, out: Held, outputs: seq<MwebOutput>, order: seq<Point>, c: Point)
    requires PeelOutcome(node, all, held, out, outputs, order) && c in held
    ensures node.peel(held[c].onion).Ok?
    ensures var output := node.peel(held[c].onion).value.hop.output;
            && (output.Some? <==> node.index + 1 == node.count)
            && (output.Some? ==>
                  && output.value.commitment == Next(node.peel, c, held[c])
                  && output.value.senderPubKey == NextStealth(node.peel, held[c])
                  && output.value.rangeProof.Some?
                  && RangeProofVerifies(output.value.rangeProof.value, output.value.commitment, output.value.message)
                  && OutputSigVerifies(output.value))
  {
    hide Linked, Covered, Visits, Outputs, Next, NextStealth;
  }

  lemma PeelKeys(node: Node, all: Held, held: Held, out: Held, outputs: seq<MwebOutput>, order: seq<Point>)
    requires PeelOutcome(node, all, held, out, outputs, order)
    ensures out.Keys == PassingKeys(node, all)
    ensures |held| == |out|
    ensures node.Last() ==> |outputs| == |out|
  {
    hide Passes, OneToOne, Visits, PassingKeys, Covered, Next, NextOnion, NextKeys, Survive, AllPeel, Peels, HopOf;
    LinkedCount(node.peel, held, out);
    VisitsElements(order, held.Keys);
    assert |held.Keys| == |held|;
    PeelKeysPass(node, all, held, out);
    PassingPeeled(node, all, out);
  }

  lemma PeelKeysPass(node: Node, all: Held, held: Held, out: Held)
    requires Survive(node, all, held) && AllPeel(node.peel, held) && out.Keys == NextKeys(node.peel, held)
    ensures out.Keys <= PassingKeys(node, all)
  {
    hide Passes;
    forall d | d in out.Keys ensures d in PassingKeys(node, all) {
      assert d in NextKeys(node.peel, held);
    }
  }

  lemma PassingPeeled(node: Node, all: Held, out: Held)
    requires Covered(node, all, out)
    ensures PassingKeys(node, all) <= out.Keys
  {
  }
}
