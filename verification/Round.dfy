/**
 * A whole mix round as a state machine: the batch goes from node 0 to the last node and back, one
 * remote call per step. The number of nodes, the batch and what is dropped where are arbitrary.
 */
module Round {
  import opened Wrappers
  import opened Bytes
  import opened Curve
  import opened Sums
  import opened Mweb
  import opened SwapSpec
  import opened Balance

  datatype Stage =
    | Forwarding(to: nat, message: Message)
    | Backwarding(to: nat, message: Message)
    | Done(tx: MwebTx)
    | Aborted(failure: Failure, at: nat)
    | Crashed(at: nat)
    | Stalled(at: nat)

  /** What every node holds, where the round is, and how many node steps it took to get there. */
  datatype State = State(held: seq<Held>, stage: Stage, steps: nat)

  /** The n nodes of a swap topology, each in its place; all of them compute fees the same way. */
  ghost predicate Topology(nodes: seq<Node>) {
    && nodes != []
    && (forall i :: 0 <= i < |nodes| ==>
          nodes[i].index == i && nodes[i].count == |nodes| && nodes[i].share == nodes[0].share)
    && forall k: nat :: nodes[0].share(k) > 0
  }

  function StageAfter(outcome: Outcome, i: nat): Stage {
    match outcome
    case Ignored => Stalled(i)
    case Panicked => Crashed(i)
    case Failed(failure) => Aborted(failure, i)
    case SendForward(message) => Forwarding(i + 1, message)
    case SendBackward(message) => if i > 0 then Backwarding(i - 1, message) else Stalled(i)
    case Finalized(tx, _, _) => Done(tx)
  }

  /** `performSwap` at node 0 with the onions it loaded. */
  ghost predicate Start(nodes: seq<Node>, loaded: Held, s: State)
    requires Topology(nodes)
  {
    && |s.held| == |nodes|
    && s.steps == 1
    && exists outcome ::
      ForwardOutcome(nodes[0], loaded, s.held[0], outcome) && s.stage == StageAfter(outcome, 0)
  }

  /** One remote call is served. */
  ghost predicate Step(nodes: seq<Node>, s: State, t: State)
    requires Topology(nodes) && |s.held| == |nodes|
  {
    && t.steps == s.steps + 1
    && |t.held| == |s.held|
    && match s.stage
       case Forwarding(i, message) =>
         && i < |nodes|
         && ChangedOnly(i, s.held, t.held)
         && exists outcome ::
              ForwardStep(nodes[i], s.held[i], message, t.held[i], outcome) && t.stage == StageAfter(outcome, i)
       case Backwarding(i, message) =>
         && i < |nodes|
         && ChangedOnly(i, s.held, t.held)
         && exists outcome ::
              BackwardStep(nodes[i], s.held[i], message, t.held[i], outcome) && t.stage == StageAfter(outcome, i)
       case _ => false
  }

  /* The invariant */

  ghost predicate PeelsApart(peel: Peeler, held: Held) {
    AllPeel(peel, held) && OneToOne(peel, held)
  }

  /** Every onion of `next` came from an onion of `held`. */
  ghost predicate Forwarded(peel: Peeler, held: Held, next: Held)
    requires AllPeel(peel, held)
  {
    && next.Keys <= NextKeys(peel, held)
    && forall c :: c in held && Next(peel, c, held[c]) in next ==>
         next[Next(peel, c, held[c])] == NextOnion(peel, held[c])
  }

  ghost predicate PeeledAt(nodes: seq<Node>, held: seq<Held>, j: nat)
    requires |held| == |nodes|
  {
    j < |nodes| && PeelsApart(nodes[j].peel, held[j])
  }

  ghost predicate ForwardedAt(nodes: seq<Node>, held: seq<Held>, j: nat)
    requires |held| == |nodes|
  {
    PeeledAt(nodes, held, j) && j + 1 < |nodes| && Forwarded(nodes[j].peel, held[j], held[j + 1])
  }

  ghost predicate LinkedAt(nodes: seq<Node>, held: seq<Held>, j: nat)
    requires |held| == |nodes|
  {
    PeeledAt(nodes, held, j) && j + 1 < |nodes| && Linked(nodes[j].peel, held[j], held[j + 1])
  }

  /** What node j's sum of hop fees lost is nothing, or a multiple of H that is the identity. */
  ghost predicate SettledAt(nodes: seq<Node>, held: seq<Held>, j: nat)
    requires |held| == |nodes|
  {
    j < |nodes| && Settles(Lost(nodes[j].peel, held[j]))
  }

  ghost predicate CountAt(held: seq<Held>, j: nat, m: nat) {
    j < |held| && |held[j]| == m
  }

  /** The batch has reached node k, peeled at every node up to there. */
  ghost predicate ForwardedUpTo(nodes: seq<Node>, held: seq<Held>, k: nat)
    requires |held| == |nodes|
  {
    && (forall j :: 0 <= j <= k ==> PeeledAt(nodes, held, j))
    && (forall j :: 0 <= j < k ==> ForwardedAt(nodes, held, j))
  }

  /** From node k on the survivors agree one to one, m at every node; after k no loss went unnoticed. */
  ghost predicate AgreedFrom(nodes: seq<Node>, held: seq<Held>, k: nat, m: nat)
    requires |held| == |nodes|
  {
    && (forall j :: k <= j < |nodes| ==> PeeledAt(nodes, held, j) && CountAt(held, j, m))
    && (forall j :: k <= j < |nodes| - 1 ==> LinkedAt(nodes, held, j))
    && (forall j :: k < j < |nodes| ==> SettledAt(nodes, held, j))
  }

  /**
   * What has been collected once the nodes from k on are done: counts, equal shares, the balance of the
   * stealth keys, and that of the values exactly if the sum of node k's fees lost nothing that counts.
   */
  ghost predicate Collected(
    nodes: seq<Node>, held: Held, k: nat, fee: nat, outputs: seq<MwebOutput>, kernels: seq<MwebKernel>)
    requires k < |nodes|
  {
    var m := |held|;
    && 1 <= m
    && |outputs| == m + |nodes| - k
    && |kernels| == |nodes| - k
    && (forall kernel :: kernel in kernels ==> kernel.fee == fee)
    && (Balanced(held, outputs, kernels) <==> Settles(Lost(nodes[k].peel, held)))
    && StealthBalanced(held, outputs, kernels)
  }

  ghost predicate ForwardingInv(nodes: seq<Node>, held: seq<Held>, i: nat, message: Message)
    requires Topology(nodes) && |held| == |nodes|
  {
    && 1 <= i < |nodes|
    && ForwardedUpTo(nodes, held, i - 1)
    && ReadForward(message).Some?
    && PeeledAt(nodes, held, i - 1)
    && Forwarded(nodes[i - 1].peel, held[i - 1], ReadForward(message).value)
  }

  ghost predicate BackwardingInv(nodes: seq<Node>, held: seq<Held>, i: nat, message: Message)
    requires Topology(nodes) && |held| == |nodes|
  {
    && i + 1 < |nodes|
    && ForwardedUpTo(nodes, held, i + 1)
    && AgreedFrom(nodes, held, i + 1, |held[i + 1]|)
    && BackwardMessageOf(nodes, held[i + 1], i, message)
  }

  ghost predicate DoneInv(nodes: seq<Node>, held: seq<Held>, tx: MwebTx)
    requires Topology(nodes) && |held| == |nodes|
  {
    && AgreedFrom(nodes, held, 0, |held[0]|)
    && Spends(held[0], tx.inputs)
    && Collected(nodes, held[0], 0, nodes[0].share(|held[0]| + |nodes|), tx.outputs, tx.kernels)
  }

  ghost predicate AbortedInv(nodes: seq<Node>, held: seq<Held>, failure: Failure, i: nat)
    requires Topology(nodes) && |held| == |nodes|
  {
    && i < |nodes|
    && match failure
       case InsufficientHopFees =>
         && AgreedFrom(nodes, held, i, |held[i]|)
         && FeeTotal(nodes[i].peel, held[i]) % U64 < nodes[0].share(|held[i]| + |nodes|)
       case CommitInvariant =>
         && i + 1 < |nodes|
         && LinkedAt(nodes, held, i) && AgreedFrom(nodes, held, i + 1, |held[i + 1]|)
         && !SettledAt(nodes, held, i + 1)
       case Unreachable => |nodes| > 1
       case _ => false
  }

  ghost predicate Inv(nodes: seq<Node>, loaded: Held, s: State)
    requires Topology(nodes)
  {
    && |s.held| == |nodes|
    && Part(s.held[0], loaded)
    && match s.stage
       case Forwarding(i, message) => s.steps == i && ForwardingInv(nodes, s.held, i, message)
       case Backwarding(i, message) => s.steps == 2 * |nodes| - 2 - i && BackwardingInv(nodes, s.held, i, message)
       case Done(tx) => s.steps == 2 * |nodes| - 1 && DoneInv(nodes, s.held, tx)
       case Aborted(failure, i) => s.steps <= 2 * |nodes| - 1 && AbortedInv(nodes, s.held, failure, i)
       case _ => false
  }

  /** A backward message is read to its last item, and carries exactly what the receiver's loops consume. */
  ghost predicate BackwardMessageOf(nodes: seq<Node>, next: Held, i: nat, message: Message)
    requires Topology(nodes) && i + 1 < |nodes|
  {
    match ReadBackward(nodes[i], message)
    case None => false
    case Some((commits, outputs, kernels)) =>
      && |message| == 2 + |outputs| + |kernels|
      && Visits(commits, next.Keys)
      && Collected(nodes, next, i + 1, nodes[0].share(|next| + |nodes|), outputs, kernels)
  }

  /** The node that serves the pending call. */
  function Serving(stage: Stage): nat {
    match stage
    case Forwarding(i, _) => i
    case Backwarding(i, _) => i
    case _ => 0
  }

  /* Messages arrive as sent */

  lemma ReadBackwardBack(node: Node, commits: seq<Point>, outputs: seq<MwebOutput>, kernels: seq<MwebKernel>)
    requires node.Placed() && |kernels| == node.count - 1 - node.index
    ensures ReadBackward(node, BackwardMessage(commits, outputs, kernels)) == Some((commits, outputs, kernels))
    ensures |BackwardMessage(commits, outputs, kernels)| == 2 + |outputs| + |kernels|
  {
    var message := BackwardMessage(commits, outputs, kernels);
    var m, k := |outputs|, |kernels|;
    assert message[2..2 + m] == OutputItems(outputs);
    assert message[2 + m..2 + m + k] == KernelItems(kernels);
    assert OutputsIn(OutputItems(outputs)) == outputs;
    assert KernelsIn(KernelItems(kernels)) == kernels;
  }

  lemma {:induction false} ReadOnionsBack(out: Held, commits: seq<Point>, items: Message)
    requires forall c :: c in commits ==> c in out
    requires |items| >= |commits| && forall i :: 0 <= i < |commits| ==> items[i] == OnionItem(out[commits[i]])
    ensures ReadOnions(commits, items).Some?
    ensures forall c :: c in ReadOnions(commits, items).value <==> c in commits
    ensures forall c :: c in commits ==> ReadOnions(commits, items).value[c] == out[c]
  {
    if commits != [] {
      var last := |commits| - 1;
      assert commits == commits[..last] + [commits[last]];
      ReadOnionsBack(out, commits[..last], items);
    }
  }

  lemma ReadForwardBack(out: Held, commits: seq<Point>)
    requires Visits(commits, out.Keys) && forall c :: c in commits ==> c in out
    ensures ReadForward(ForwardMessage(commits, Pick(out, commits))) == Some(out)
  {
    var items := OnionItems(Pick(out, commits));
    assert ForwardMessage(commits, Pick(out, commits))[1..] == items;
    ReadOnionsBack(out, commits, items);
    SameBatch(out, ReadOnions(commits, items).value, commits);
  }

  lemma SameBatch(out: Held, batch: Held, commits: seq<Point>)
    requires Visits(commits, out.Keys)
    requires forall c :: c in batch <==> c in commits
    requires forall c :: c in commits ==> c in out && batch[c] == out[c]
    ensures batch == out
  {
    VisitsElements(commits, out.Keys);
  }

  /* The steps */

  lemma LinkedIsForwarded(peel: Peeler, held: Held, out: Held, next: Held)
    requires AllPeel(peel, held) && Forwarded(peel, held, out) && Part(next, out)
    ensures Forwarded(peel, held, next)
  {
  }

  /** Both balances against the node's own onions: that of the values if nothing that counts was lost. */
  lemma NodeBalances(
    peel: Peeler, held: Held, value: nat, fee: nat, senderKey: Bytes32,
    outputs: seq<MwebOutput>, kernels: seq<MwebKernel>, outputs': seq<MwebOutput>, kernels': seq<MwebKernel>)
    requires AllPeel(peel, held) && FeeTotal(peel, held) % U64 == value + fee
    requires CommitCheck(peel, held, outputs, kernels) && StealthCheck(peel, held, outputs, kernels)
    requires Leaves(peel, held, value, fee, senderKey, outputs, kernels, outputs', kernels')
    ensures Balanced(held, outputs', kernels') <==> Settles(Lost(peel, held))
    ensures StealthBalanced(held, outputs', kernels')
  {
    hide FeeTotal, Balanced, StealthBalanced, CommitCheck, StealthCheck, Leaves, AllPeel, Settles;
    CommitStep(Lost(peel, held), peel, held, value, fee, senderKey, outputs, kernels, outputs', kernels');
    StealthStep(peel, held, value, fee, senderKey, outputs, kernels, outputs', kernels');
  }

  /** After the peel at the last node or after both checks: the node adds its part. */
  lemma NodeFinishes(
    nodes: seq<Node>, i: nat, held: Held, outputs: seq<MwebOutput>, kernels: seq<MwebKernel>,
    value: nat, fee: nat, senderKey: Bytes32, outputs': seq<MwebOutput>, kernels': seq<MwebKernel>)
    requires i < |nodes| && AllPeel(nodes[i].peel, held) && |held| > 0
    requires CommitCheck(nodes[i].peel, held, outputs, kernels) && StealthCheck(nodes[i].peel, held, outputs, kernels)
    requires |outputs| == |held| + |nodes| - 1 - i && |kernels| == |nodes| - 1 - i
    requires forall kernel :: kernel in kernels ==> kernel.fee == fee
    requires FeeTotal(nodes[i].peel, held) % U64 == value + fee
    requires Leaves(nodes[i].peel, held, value, fee, senderKey, outputs, kernels, outputs', kernels')
    ensures Collected(nodes, held, i, fee, outputs', kernels')
  {
    hide FeeTotal, Balanced, StealthBalanced, CommitCheck, StealthCheck, Leaves, AllPeel, Settles, Lost;
    NodeBalances(nodes[i].peel, held, value, fee, senderKey, outputs, kernels, outputs', kernels');
    LeavesCounts(nodes[i].peel, held, value, fee, senderKey, outputs, kernels, outputs', kernels');
  }

  /** One more output, one more kernel, and the kernel carries the node's fee. */
  lemma LeavesCounts(
    peel: Peeler, held: Held, value: nat, fee: nat, senderKey: Bytes32,
    outputs: seq<MwebOutput>, kernels: seq<MwebKernel>, outputs': seq<MwebOutput>, kernels': seq<MwebKernel>)
    requires Leaves(peel, held, value, fee, senderKey, outputs, kernels, outputs', kernels')
    ensures |outputs'| == |outputs| + 1 && |kernels'| == |kernels| + 1
    ensures forall kernel :: kernel in kernels' ==> kernel in kernels || kernel.fee == fee
  {
    SumSeqGrow(outputs, OwnOutput(value, senderKey).0, outputs', OutputVec);
  }

  lemma NoOnionsNoFees(peel: Peeler, held: Held)
    requires |held| == 0
    ensures FeeTotal(peel, held) == 0
  {
    assert |held| == |held.Keys|;
    assert held.Keys == {};
  }

  /** A message sent by node i + 1 after it finished is one that node i can check. */
  lemma MessageArrives(
    nodes: seq<Node>, i: nat, held: Held, commits: seq<Point>, outputs: seq<MwebOutput>, kernels: seq<MwebKernel>)
    requires Topology(nodes) && i + 1 < |nodes| && Visits(commits, held.Keys)
    requires Collected(nodes, held, i + 1, nodes[0].share(|held| + |nodes|), outputs, kernels)
    ensures BackwardMessageOf(nodes, held, i, BackwardMessage(commits, outputs, kernels))
  {
    ReadBackwardBack(nodes[i], commits, outputs, kernels);
  }

  /** Node 0 with its part appended finishes the transaction. */
  lemma HeadFinishes(
    nodes: seq<Node>, held: seq<Held>, outputs: seq<MwebOutput>, kernels: seq<MwebKernel>, outcome: Outcome)
    requires Topology(nodes) && |held| == |nodes| && AgreedFrom(nodes, held, 0, |held[0]|)
    requires Collected(nodes, held[0], 0, nodes[0].share(|held[0]| + |nodes|), outputs, kernels)
    requires Delivers(nodes[0], held[0], outputs, kernels, outcome)
    ensures outcome.Finalized? && DoneInv(nodes, held, outcome.tx)
  {
    assert Spends(held[0], outcome.tx.inputs);
  }

  /** Any later node with its part appended hands on to the one before, if it can reach it. */
  lemma NodeHandsOn(
    nodes: seq<Node>, held: seq<Held>, i: nat, outputs: seq<MwebOutput>, kernels: seq<MwebKernel>, outcome: Outcome)
    requires Topology(nodes) && i + 1 < |nodes| && |held| == |nodes|
    requires ForwardedUpTo(nodes, held, i + 1) && AgreedFrom(nodes, held, i + 1, |held[i + 1]|)
    requires Collected(nodes, held[i + 1], i + 1, nodes[0].share(|held[i + 1]| + |nodes|), outputs, kernels)
    requires Delivers(nodes[i + 1], held[i + 1], outputs, kernels, outcome)
    ensures outcome == Failed(Unreachable)
         || (outcome.SendBackward? && BackwardingInv(nodes, held, i, outcome.message))
  {
    if outcome == Failed(Unreachable) {
      return;
    }
    var commits :| Visits(commits, held[i + 1].Keys)
      && outcome == SendBackward(BackwardMessage(commits, outputs, kernels));
    MessageArrives(nodes, i, held[i + 1], commits, outputs, kernels);
  }

  /** With m + n outputs in the end, what a node settles. */
  lemma SettlesExactly(
    nodes: seq<Node>, i: nat, held: Held, outputs: seq<MwebOutput>, kernels: seq<MwebKernel>, earned: int,
    outcome: Outcome)
    requires Topology(nodes) && i < |nodes| && |outputs| == |held| + |nodes| - 1 - i
    requires earned == FeeTotal(nodes[i].peel, held) % U64
    requires BackwardOutcome(nodes[i], held, outputs, kernels, outcome)
    ensures Settled(nodes[i], held, earned, nodes[0].share(|held| + |nodes|), outputs, kernels, outcome)
  {
    hide Settled, FeeTotal;
    assert |outputs| + nodes[i].index + 1 == |held| + |nodes|;
  }

  lemma NotWrapped(x: int)
    requires 0 <= x < U64
    ensures x % U64 == x
  {
  }

  /** A node with its checks behind it either runs out of fees or appends its part and delivers. */
  lemma AfterChecks(
    nodes: seq<Node>, held: Held, i: nat, outputs: seq<MwebOutput>, kernels: seq<MwebKernel>,
    earned: int, fee: nat, outcome: Outcome)
    requires i < |nodes| && AllPeel(nodes[i].peel, held)
    requires CommitCheck(nodes[i].peel, held, outputs, kernels) && StealthCheck(nodes[i].peel, held, outputs, kernels)
    requires |outputs| == |held| + |nodes| - 1 - i && |kernels| == |nodes| - 1 - i
    requires fee > 0 && forall kernel :: kernel in kernels ==> kernel.fee == fee
    requires earned == FeeTotal(nodes[i].peel, held) % U64
      && Settled(nodes[i], held, earned, fee, outputs, kernels, outcome)
    ensures if earned < fee then outcome == Failed(InsufficientHopFees)
            else exists outputs', kernels' ::
              Collected(nodes, held, i, fee, outputs', kernels')
                && Delivers(nodes[i], held, outputs', kernels', outcome)
  {
    hide CommitCheck, StealthCheck, Leaves, Delivers, Collected, FeeTotal, AllPeel;
    if earned >= fee {
      if |held| == 0 {
        NoOnionsNoFees(nodes[i].peel, held);
      }
      var value := earned - fee;
      var senderKey, outputs', kernels' :|
        Leaves(nodes[i].peel, held, value, fee, senderKey, outputs, kernels, outputs', kernels')
        && Delivers(nodes[i], held, outputs', kernels', outcome);
      NodeFinishes(nodes, i, held, outputs, kernels, value, fee, senderKey, outputs', kernels');
    }
  }

  /** What a node keeps when the next node has reported is in one-to-one agreement with the next node. */
  lemma KeptLinks(peel: Peeler, all: Held, next: Held, commits: seq<Point>)
    requires PeelsApart(peel, all) && Forwarded(peel, all, next) && Visits(commits, next.Keys)
    ensures var held := Kept(peel, all, commits);
            Part(held, all) && PeelsApart(peel, held) && Linked(peel, held, next)
  {
    VisitsElements(commits, next.Keys);
    var held := Kept(peel, all, commits);
    assert forall c :: c in held ==> c in all && held[c] == all[c];
    assert AllPeel(peel, held);
    assert OneToOne(peel, held);
    forall d | d in next ensures d in NextKeys(peel, held) {
      assert d in NextKeys(peel, all);
      var c :| c in all && Next(peel, c, all[c]) == d;
      assert c in held;
    }
  }

  /* The invariant is kept */

  lemma ForwardedAtPart(nodes: seq<Node>, before: seq<Held>, held: seq<Held>, j: nat)
    requires |before| == |held| == |nodes| && ForwardedAt(nodes, before, j)
    requires held[j] == before[j] && Part(held[j + 1], before[j + 1])
    ensures ForwardedAt(nodes, held, j)
  {
  }

  lemma LinkedAtSame(nodes: seq<Node>, before: seq<Held>, held: seq<Held>, j: nat)
    requires |before| == |held| == |nodes| && LinkedAt(nodes, before, j)
    requires held[j] == before[j] && held[j + 1] == before[j + 1]
    ensures LinkedAt(nodes, held, j)
  {
  }

  /** Only node i's onions changed. */
  ghost predicate ChangedOnly(i: nat, before: seq<Held>, held: seq<Held>) {
    |before| == |held| && forall j :: 0 <= j < |held| && j != i ==> held[j] == before[j]
  }

  /** The batch that node k sent has been peeled and filtered at the next one; the chain grows by one node. */
  lemma ChainGrows(nodes: seq<Node>, before: seq<Held>, held: seq<Held>, k: nat, all: Held)
    requires k + 1 < |nodes| == |held| && ChangedOnly(k + 1, before, held)
    requires ForwardedUpTo(nodes, before, k) && PeeledAt(nodes, before, k)
    requires Forwarded(nodes[k].peel, before[k], all)
    requires Part(held[k + 1], all) && PeelsApart(nodes[k + 1].peel, held[k + 1])
    ensures ForwardedUpTo(nodes, held, k + 1)
  {
    LinkJoins(nodes, before, held, k, all);
    forall j | 0 <= j <= k + 1 ensures PeeledAt(nodes, held, j) {
      if j <= k {
        assert PeeledAt(nodes, before, j);
      }
    }
    forall j | 0 <= j < k + 1 ensures ForwardedAt(nodes, held, j) {
      if j < k {
        ForwardedAtPart(nodes, before, held, j);
      }
    }
  }

  lemma LinkJoins(nodes: seq<Node>, before: seq<Held>, held: seq<Held>, k: nat, all: Held)
    requires k + 1 < |nodes| == |held| == |before| && held[k] == before[k]
    requires PeeledAt(nodes, before, k) && Forwarded(nodes[k].peel, before[k], all) && Part(held[k + 1], all)
    ensures ForwardedAt(nodes, held, k)
  {
    LinkedIsForwarded(nodes[k].peel, before[k], all, held[k + 1]);
  }

  /** A node filtered what it holds down to what the next node still holds; the chain stays. */
  lemma ChainStays(nodes: seq<Node>, before: seq<Held>, held: seq<Held>, i: nat)
    requires i < |nodes| == |held| && ChangedOnly(i, before, held)
    requires ForwardedUpTo(nodes, before, i)
    requires Part(held[i], before[i]) && PeelsApart(nodes[i].peel, held[i])
    ensures ForwardedUpTo(nodes, held, i)
  {
    forall j | 0 <= j <= i ensures PeeledAt(nodes, held, j) {
      assert PeeledAt(nodes, before, j);
    }
    forall j | 0 <= j < i ensures ForwardedAt(nodes, held, j) {
      ForwardedAtPart(nodes, before, held, j);
    }
  }

  /** The same step seen from the end: agreement grows by one node. */
  lemma AgreementGrows(nodes: seq<Node>, before: seq<Held>, held: seq<Held>, i: nat, m: nat)
    requires i + 1 < |nodes| == |held| && ChangedOnly(i, before, held)
    requires AgreedFrom(nodes, before, i + 1, m)
    requires PeelsApart(nodes[i].peel, held[i]) && Linked(nodes[i].peel, held[i], before[i + 1]) && |held[i]| == m
    requires SettledAt(nodes, before, i + 1)
    ensures AgreedFrom(nodes, held, i, m)
  {
    hide Settles, Lost, Linked, PeelsApart;
    forall j | i < j < |nodes| ensures SettledAt(nodes, held, j) {
      assert SettledAt(nodes, before, j);
    }
    forall j | i <= j < |nodes| ensures PeeledAt(nodes, held, j) && CountAt(held, j, m) {
      if j > i {
        assert PeeledAt(nodes, before, j) && CountAt(before, j, m);
      }
    }
    forall j | i <= j < |nodes| - 1 ensures LinkedAt(nodes, held, j) {
      if j > i {
        LinkedAtSame(nodes, before, held, j);
      }
    }
  }

  /** What a node's answer must establish for the round to go on. */
  ghost predicate OutcomeInv(nodes: seq<Node>, held: seq<Held>, i: nat, outcome: Outcome)
    requires Topology(nodes) && |held| == |nodes|
  {
    match outcome
    case SendForward(message) => ForwardingInv(nodes, held, i + 1, message)
    case SendBackward(message) => i > 0 && BackwardingInv(nodes, held, i - 1, message)
    case Finalized(tx, _, _) => i == 0 && DoneInv(nodes, held, tx)
    case Failed(failure) => AbortedInv(nodes, held, failure, i)
    case _ => false
  }

  lemma Delivered(
    nodes: seq<Node>, held: seq<Held>, i: nat, outputs: seq<MwebOutput>, kernels: seq<MwebKernel>, outcome: Outcome)
    requires Topology(nodes) && i < |nodes| == |held|
    requires ForwardedUpTo(nodes, held, i) && AgreedFrom(nodes, held, i, |held[i]|)
    requires Collected(nodes, held[i], i, nodes[0].share(|held[i]| + |nodes|), outputs, kernels)
    requires Delivers(nodes[i], held[i], outputs, kernels, outcome)
    ensures OutcomeInv(nodes, held, i, outcome)
    ensures !outcome.SendForward?
  {
    hide ForwardedUpTo, AgreedFrom, Collected, Spends, DoneInv, BackwardingInv, ForwardingInv;
    if i == 0 {
      HeadFinishes(nodes, held, outputs, kernels, outcome);
    } else {
      NodeHandsOn(nodes, held, i - 1, outputs, kernels, outcome);
    }
  }

  lemma RanOut(nodes: seq<Node>, held: seq<Held>, i: nat, outcome: Outcome)
    requires Topology(nodes) && i < |nodes| == |held| && AgreedFrom(nodes, held, i, |held[i]|)
    requires FeeTotal(nodes[i].peel, held[i]) % U64 < nodes[0].share(|held[i]| + |nodes|)
    requires outcome == Failed(InsufficientHopFees)
    ensures OutcomeInv(nodes, held, i, outcome)
    ensures !outcome.SendForward?
  {
  }

  /** Both checks pass on what was collected so far, and the counts are those of m survivors. */
  ghost predicate Checked(nodes: seq<Node>, held: Held, i: nat, outputs: seq<MwebOutput>, kernels: seq<MwebKernel>)
    requires Topology(nodes)
  {
    && i < |nodes|
    && AllPeel(nodes[i].peel, held)
    && CommitCheck(nodes[i].peel, held, outputs, kernels)
    && StealthCheck(nodes[i].peel, held, outputs, kernels)
    && |outputs| == |held| + |nodes| - 1 - i
    && |kernels| == |nodes| - 1 - i
    && forall kernel :: kernel in kernels ==> kernel.fee == nodes[0].share(|held| + |nodes|)
  }

  lemma CheckedSettles(
    nodes: seq<Node>, held: Held, i: nat, outputs: seq<MwebOutput>, kernels: seq<MwebKernel>, outcome: Outcome)
    requires Topology(nodes) && Checked(nodes, held, i, outputs, kernels)
    requires BackwardOutcome(nodes[i], held, outputs, kernels, outcome)
    ensures if FeeTotal(nodes[i].peel, held) % U64 < nodes[0].share(|held| + |nodes|)
      then outcome == Failed(InsufficientHopFees)
            else exists outputs', kernels' ::
              && Collected(nodes, held, i, nodes[0].share(|held| + |nodes|), outputs', kernels')
              && Delivers(nodes[i], held, outputs', kernels', outcome)
  {
    var fee := nodes[0].share(|held| + |nodes|);
    var earned := FeeTotal(nodes[i].peel, held) % U64;
    SettlesExactly(nodes, i, held, outputs, kernels, earned, outcome);
    AfterChecks(nodes, held, i, outputs, kernels, earned, fee, outcome);
  }

  /** A node whose checks pass and whose survivors agree with all later ones. */
  lemma NodeSettles(
    nodes: seq<Node>, held: seq<Held>, i: nat, outputs: seq<MwebOutput>, kernels: seq<MwebKernel>, outcome: Outcome)
    requires Topology(nodes) && i < |nodes| == |held|
    requires ForwardedUpTo(nodes, held, i) && AgreedFrom(nodes, held, i, |held[i]|)
    requires Checked(nodes, held[i], i, outputs, kernels)
    requires BackwardOutcome(nodes[i], held[i], outputs, kernels, outcome)
    ensures OutcomeInv(nodes, held, i, outcome)
    ensures !outcome.SendForward?
  {
    hide CommitCheck, StealthCheck, Balanced, StealthBalanced, FeeTotal, Delivers, Settled;
    CheckedSettles(nodes, held[i], i, outputs, kernels, outcome);
    if FeeTotal(nodes[i].peel, held[i]) % U64 < nodes[0].share(|held[i]| + |nodes|) {
      RanOut(nodes, held, i, outcome);
    } else {
      var outputs', kernels' :|
        && Collected(nodes, held[i], i, nodes[0].share(|held[i]| + |nodes|), outputs', kernels')
        && Delivers(nodes[i], held[i], outputs', kernels', outcome);
      Delivered(nodes, held, i, outputs', kernels', outcome);
    }
  }

  lemma LastAgrees(nodes: seq<Node>, held: seq<Held>, i: nat)
    requires i + 1 == |nodes| == |held| && PeeledAt(nodes, held, i)
    ensures AgreedFrom(nodes, held, i, |held[i]|)
  {
    assert CountAt(held, i, |held[i]|);
  }

  lemma LastChecked(
    nodes: seq<Node>, i: nat, all: Held, held: Held, out: Held, outputs: seq<MwebOutput>, order: seq<Point>)
    requires Topology(nodes) && i + 1 == |nodes|
    requires PeelOutcome(nodes[i], all, held, out, outputs, order)
    ensures Checked(nodes, held, i, outputs, [])
  {
    LastChecksPass(nodes[i], all, held, out, outputs, order);
  }

  /** Peeling at the last node turns the round round. */
  lemma LastTurns(
    nodes: seq<Node>, held: seq<Held>, i: nat, all: Held, out: Held, outputs: seq<MwebOutput>, order: seq<Point>,
    outcome: Outcome)
    requires Topology(nodes) && |held| == |nodes| == i + 1 && ForwardedUpTo(nodes, held, i)
    requires PeelOutcome(nodes[i], all, held[i], out, outputs, order)
    requires BackwardOutcome(nodes[i], held[i], outputs, [], outcome)
    ensures OutcomeInv(nodes, held, i, outcome)
    ensures !outcome.SendForward?
  {
    LastChecked(nodes, i, all, held[i], out, outputs, order);
    assert PeeledAt(nodes, held, i);
    LastAgrees(nodes, held, i);
    NodeSettles(nodes, held, i, outputs, [], outcome);
  }

  /** Peeling at any other node passes the batch on. */
  lemma NodePasses(
    nodes: seq<Node>, held: seq<Held>, i: nat, all: Held, out: Held, order: seq<Point>, commits: seq<Point>)
    requires Topology(nodes) && i + 1 < |nodes| == |held| && ForwardedUpTo(nodes, held, i)
    requires PeelOutcome(nodes[i], all, held[i], out, [], order) && Ascending(commits, out.Keys)
    ensures ForwardingInv(nodes, held, i + 1, ForwardMessage(commits, Pick(out, commits)))
  {
    ReadForwardBack(out, commits);
    assert PeeledAt(nodes, held, i);
  }

  /** The batch moves on, exactly if there is a later node and it is reached. */
  ghost predicate MovesOn(nodes: seq<Node>, i: nat, outcome: Outcome) {
    outcome.SendForward? <==> i + 1 < |nodes| && outcome != Failed(Unreachable)
  }

  lemma ForwardServed(nodes: seq<Node>, held: seq<Held>, i: nat, all: Held, outcome: Outcome)
    requires Topology(nodes) && i < |nodes| == |held| && ForwardedUpTo(nodes, held, i)
    requires ForwardOutcome(nodes[i], all, held[i], outcome)
    ensures OutcomeInv(nodes, held, i, outcome) && MovesOn(nodes, i, outcome)
  {
    var out, outputs, order :|
      PeelOutcome(nodes[i], all, held[i], out, outputs, order)
      && if nodes[i].Last() then BackwardOutcome(nodes[i], held[i], outputs, [], outcome)
         else outcome == Failed(Unreachable) || SendsOn(out, outcome);
    if nodes[i].Last() {
      LastTurns(nodes, held, i, all, out, outputs, order, outcome);
    } else if outcome != Failed(Unreachable) {
      var commits :| Ascending(commits, out.Keys)
        && outcome == SendForward(ForwardMessage(commits, Pick(out, commits)));
      NodePasses(nodes, held, i, all, out, order, commits);
    }
  }

  /** What a node holds after peeling is part of what it received, and peels apart. */
  lemma ForwardKeepsPart(node: Node, all: Held, held: Held, outcome: Outcome)
    requires node.Placed() && ForwardOutcome(node, all, held, outcome)
    ensures Part(held, all) && PeelsApart(node.peel, held)
  {
  }

  /** A forward call never makes the round fail, other than for want of fees at the last node or of a peer. */
  lemma ForwardStepKeeps(
    nodes: seq<Node>, before: seq<Held>, held: seq<Held>, k: nat, message: Message, outcome: Outcome)
    requires Topology(nodes) && |before| == |nodes| == |held| && k + 1 < |nodes|
    requires ForwardingInv(nodes, before, k + 1, message) && ChangedOnly(k + 1, before, held)
    requires ForwardStep(nodes[k + 1], before[k + 1], message, held[k + 1], outcome)
    ensures OutcomeInv(nodes, held, k + 1, outcome) && MovesOn(nodes, k + 1, outcome)
  {
    hide ForwardOutcome, ForwardedUpTo, PeeledAt, Forwarded, ReadForward, OutcomeInv, MovesOn, Part, PeelsApart;
    var all := ReadForward(message).value;
    ForwardKeepsPart(nodes[k + 1], all, held[k + 1], outcome);
    ChainGrows(nodes, before, held, k, all);
    ForwardServed(nodes, held, k + 1, all, outcome);
  }

  /**
   * What a node keeps against what it received: the stealth check passes, the commitment check exactly
   * if the next node lost nothing that counts.
   */
  lemma KeptChecked(
    nodes: seq<Node>, i: nat, all: Held, next: Held, commits: seq<Point>, outputs: seq<MwebOutput>,
    kernels: seq<MwebKernel>)
    requires Topology(nodes) && i + 1 < |nodes|
    requires PeelsApart(nodes[i].peel, all) && Forwarded(nodes[i].peel, all, next) && Visits(commits, next.Keys)
    requires Collected(nodes, next, i + 1, nodes[0].share(|next| + |nodes|), outputs, kernels)
    ensures var held := Kept(nodes[i].peel, all, commits);
            && PeelsApart(nodes[i].peel, held) && Linked(nodes[i].peel, held, next) && Part(held, all)
            && |held| == |next|
            && (CommitCheck(nodes[i].peel, held, outputs, kernels) <==> Settles(Lost(nodes[i + 1].peel, next)))
            && StealthCheck(nodes[i].peel, held, outputs, kernels)
            && (Settles(Lost(nodes[i + 1].peel, next)) ==> Checked(nodes, held, i, outputs, kernels))
  {
    hide CommitCheck, StealthCheck, Balanced, StealthBalanced, OneToOne, Linked, Kept, Forwarded, Part, Visits,
      Settles, Lost;
    var held := Kept(nodes[i].peel, all, commits);
    KeptLinks(nodes[i].peel, all, next, commits);
    LinkedCount(nodes[i].peel, held, next);
    ChecksExact(nodes[i].peel, held, next, outputs, kernels);
  }

  /** What the invariant says about node i when a backward message waits for it. */
  lemma HasArrived(nodes: seq<Node>, held: seq<Held>, i: nat, message: Message)
    requires Topology(nodes) && |held| == |nodes| && BackwardingInv(nodes, held, i, message)
    ensures ReadBackward(nodes[i], message).Some?
    ensures var (commits, outputs, kernels) := ReadBackward(nodes[i], message).value;
            && outputs != []
            && Visits(commits, held[i + 1].Keys)
            && Collected(nodes, held[i + 1], i + 1, nodes[0].share(|held[i + 1]| + |nodes|), outputs, kernels)
    ensures PeelsApart(nodes[i].peel, held[i]) && Forwarded(nodes[i].peel, held[i], held[i + 1])
    ensures ForwardedUpTo(nodes, held, i) && AgreedFrom(nodes, held, i + 1, |held[i + 1]|)
  {
    hide Balanced, StealthBalanced, ReadBackward, OneToOne, Visits, Forwarded, SettledAt, Settles, Lost;
    assert PeeledAt(nodes, held, i) && ForwardedAt(nodes, held, i);
  }

  /**
   * A backward call on an honest message cannot panic or find the stealth keys wrong; it finds the
   * commitments wrong exactly if the next node lost a multiple of H that is not the identity.
   */
  lemma BackwardStepKeeps(
    nodes: seq<Node>, before: seq<Held>, held: seq<Held>, i: nat, message: Message, outcome: Outcome)
    requires Topology(nodes) && |before| == |nodes| == |held|
    requires BackwardingInv(nodes, before, i, message) && ChangedOnly(i, before, held)
    requires BackwardStep(nodes[i], before[i], message, held[i], outcome)
    ensures OutcomeInv(nodes, held, i, outcome)
    ensures !outcome.SendForward?
    ensures outcome == Failed(CommitInvariant) <==> !SettledAt(nodes, before, i + 1)
  {
    hide CommitCheck, StealthCheck, Balanced, StealthBalanced, ReadBackward, Kept, Linked, Delivers, Visits,
      Collected, Forwarded, ForwardedUpTo, AgreedFrom, OneToOne, Part, OutcomeInv, BackwardStep, BackwardOutcome,
      Settles, Lost, Checked;
    HasArrived(nodes, before, i, message);
    var (commits, outputs, kernels) := ReadBackward(nodes[i], message).value;
    KeptChecked(nodes, i, before[i], before[i + 1], commits, outputs, kernels);
    KeptAnswers(nodes[i], before[i], message, held[i], outcome, commits, outputs, kernels);
    ChainStays(nodes, before, held, i);
    if SettledAt(nodes, before, i + 1) {
      AgreementGrows(nodes, before, held, i, |before[i + 1]|);
      NodeSettles(nodes, held, i, outputs, kernels, outcome);
      SettlesOtherwise(nodes[i], held[i], outputs, kernels, outcome);
    } else {
      Caught(nodes, before, held, i, outcome);
    }
  }

  lemma SettlesOtherwise(node: Node, held: Held, outputs: seq<MwebOutput>, kernels: seq<MwebKernel>, outcome: Outcome)
    requires node.Placed() && BackwardOutcome(node, held, outputs, kernels, outcome)
    ensures outcome.SendBackward? || outcome.Finalized?
         || outcome == Failed(InsufficientHopFees) || outcome == Failed(Unreachable)
  {
    hide Leaves, FeeTotal;
  }

  /** The next node's loss stops the round here. */
  lemma Caught(nodes: seq<Node>, before: seq<Held>, held: seq<Held>, i: nat, outcome: Outcome)
    requires Topology(nodes) && i + 1 < |nodes| == |held| && ChangedOnly(i, before, held)
    requires AgreedFrom(nodes, before, i + 1, |before[i + 1]|) && !SettledAt(nodes, before, i + 1)
    requires PeelsApart(nodes[i].peel, held[i]) && Linked(nodes[i].peel, held[i], before[i + 1])
    requires outcome == Failed(CommitInvariant)
    ensures OutcomeInv(nodes, held, i, outcome)
  {
    hide Settles, Lost, Linked, PeelsApart;
    forall j | i + 1 <= j < |nodes| ensures PeeledAt(nodes, held, j) && CountAt(held, j, |held[i + 1]|) {
      assert PeeledAt(nodes, before, j) && CountAt(before, j, |before[i + 1]|);
    }
    forall j | i + 1 <= j < |nodes| - 1 ensures LinkedAt(nodes, held, j) {
      LinkedAtSame(nodes, before, held, j);
    }
    forall j | i + 1 < j < |nodes| ensures SettledAt(nodes, held, j) {
      assert SettledAt(nodes, before, j);
    }
    assert PeeledAt(nodes, held, i) && LinkedAt(nodes, held, i);
    assert !SettledAt(nodes, held, i + 1);
  }

  lemma KeptAnswers(
    node: Node, all: Held, message: Message, held: Held, outcome: Outcome,
    commits: seq<Point>, outputs: seq<MwebOutput>, kernels: seq<MwebKernel>)
    requires node.Placed() && !node.Last() && AllPeel(node.peel, all) && outputs != []
    requires ReadBackward(node, message) == Some((commits, outputs, kernels))
    requires StealthCheck(node.peel, Kept(node.peel, all, commits), outputs, kernels)
    requires BackwardStep(node, all, message, held, outcome)
    ensures held == Kept(node.peel, all, commits)
    ensures if CommitCheck(node.peel, held, outputs, kernels)
      then BackwardOutcome(node, held, outputs, kernels, outcome) else outcome == Failed(CommitInvariant)
  {
  }

  /* Whole runs */

  /** The invariant holds when the batch leaves node 0. */
  lemma StartKeeps(nodes: seq<Node>, loaded: Held, s: State)
    requires Topology(nodes) && Start(nodes, loaded, s)
    ensures Inv(nodes, loaded, s)
  {
    hide ForwardingInv, BackwardingInv, DoneInv, AbortedInv, PeelOutcome, BackwardOutcome, FeeTotal;
    var outcome :| ForwardOutcome(nodes[0], loaded, s.held[0], outcome) && s.stage == StageAfter(outcome, 0);
    ForwardKeepsPart(nodes[0], loaded, s.held[0], outcome);
    assert PeeledAt(nodes, s.held, 0);
    ForwardServed(nodes, s.held, 0, loaded, outcome);
  }

  /** Every step of every run keeps the invariant. */
  lemma StepKeeps(nodes: seq<Node>, loaded: Held, s: State, t: State)
    requires Topology(nodes) && Inv(nodes, loaded, s) && Step(nodes, s, t)
    ensures Inv(nodes, loaded, t)
  {
    hide ForwardStep, BackwardStep, DoneInv, AbortedInv, FeeTotal, ReadForward, BackwardMessageOf, PeeledAt,
      Forwarded, ForwardedUpTo, AgreedFrom;
    match s.stage
    case Forwarding(i, message) =>
      var outcome :| ForwardStep(nodes[i], s.held[i], message, t.held[i], outcome)
        && t.stage == StageAfter(outcome, i);
      ForwardStepKeeps(nodes, s.held, t.held, i - 1, message, outcome);
      assert t.held[0] == s.held[0];
    case Backwarding(i, message) =>
      var outcome :| BackwardStep(nodes[i], s.held[i], message, t.held[i], outcome)
        && t.stage == StageAfter(outcome, i);
      BackwardStepKeeps(nodes, s.held, t.held, i, message, outcome);
      BackwardPart(nodes[i], s.held[i], message, t.held[i], outcome);
      assert Part(t.held[0], s.held[0]);
    case _ =>
  }

  /** A backward call only drops onions. */
  lemma BackwardPart(node: Node, all: Held, message: Message, held: Held, outcome: Outcome)
    requires node.Placed() && BackwardStep(node, all, message, held, outcome)
    ensures Part(held, all)
  {
  }

  ghost predicate RunStep(nodes: seq<Node>, s: State, t: State)
    requires Topology(nodes)
  {
    |s.held| == |nodes| && Step(nodes, s, t)
  }

  /** A run: the start and any number of steps. */
  ghost predicate Run(nodes: seq<Node>, loaded: Held, run: seq<State>)
    requires Topology(nodes)
  {
    && run != []
    && Start(nodes, loaded, run[0])
    && forall k :: 0 <= k < |run| - 1 ==> RunStep(nodes, run[k], run[k + 1])
  }

  lemma {:induction false} RunKeeps(nodes: seq<Node>, loaded: Held, run: seq<State>, k: nat)
    requires Topology(nodes) && Run(nodes, loaded, run) && k < |run|
    ensures Inv(nodes, loaded, run[k]) && run[k].steps == k + 1
  {
    hide ForwardingInv, BackwardingInv, DoneInv, AbortedInv, ForwardOutcome, ForwardStep, BackwardStep;
    if k == 0 {
      StartKeeps(nodes, loaded, run[0]);
    } else {
      RunKeeps(nodes, loaded, run, k - 1);
      assert RunStep(nodes, run[k - 1], run[k - 1 + 1]);
      StepKeeps(nodes, loaded, run[k - 1], run[k]);
    }
  }

  /**
   * Completeness over whole runs, for any number n of nodes, any batch, any drops and any fees: the
   * round ends within 2n - 1 node steps and no node ever panics. It aborts only where a peer cannot be
   * reached, where the survivors' fees, summed in 64 bits, are less than the node's share, or where the
   * next node's sum lost a multiple of H that is not the identity.
   */
  lemma RoundCompletes(nodes: seq<Node>, loaded: Held, run: seq<State>)
    requires Topology(nodes) && Run(nodes, loaded, run)
    ensures |run| <= 2 * |nodes| - 1
    ensures var s := run[|run| - 1];
      |s.held| == |nodes| &&
      match s.stage
      case Forwarding(_, _) => |run| < |nodes|
      case Backwarding(_, _) => |nodes| <= |run| < 2 * |nodes| - 1
      case Done(tx) => |run| == 2 * |nodes| - 1
      case Aborted(failure, i) =>
        && i < |nodes|
        && (failure == InsufficientHopFees || failure == CommitInvariant || failure == Unreachable)
        && (failure == InsufficientHopFees ==>
              FeeTotal(nodes[i].peel, s.held[i]) % U64 < nodes[0].share(|s.held[i]| + |nodes|))
        && (failure == CommitInvariant ==> i + 1 < |nodes| && !Settles(Lost(nodes[i + 1].peel, s.held[i + 1])))
        && (failure == Unreachable ==> |nodes| > 1)
      case _ => false
  {
    hide ForwardedUpTo, AgreedFrom, Collected, Spends, Balanced, BackwardMessageOf, Forwarded, FeeTotal, ReadForward,
      Settles, Lost;
    assert run != [];
    RunKeeps(nodes, loaded, run, |run| - 1);
    assert Inv(nodes, loaded, run[|run| - 1]);
  }

  /**
   * An overflow is found by the previous node, exactly: along a run a node finds its commitment check
   * failing if and only if the sum of the node after it lost a multiple of H that is not the identity.
   */
  lemma LossStopsRound(nodes: seq<Node>, loaded: Held, run: seq<State>, k: nat)
    requires Topology(nodes) && Run(nodes, loaded, run) && k + 1 < |run| && run[k].stage.Backwarding?
    ensures |run[k].held| == |nodes| && run[k].stage.to + 1 < |nodes|
    ensures var i := run[k].stage.to;
            run[k + 1].stage == Aborted(CommitInvariant, i)
            <==> !Settles(Lost(nodes[i + 1].peel, run[k].held[i + 1]))
  {
    hide ForwardStep, BackwardStep, Settles, Lost, BackwardMessageOf, AgreedFrom, ForwardedUpTo, Start, Part,
      OutcomeInv;
    RunKeeps(nodes, loaded, run, k);
    assert RunStep(nodes, run[k], run[k + 1]);
    var s, t := run[k], run[k + 1];
    var i, message := s.stage.to, s.stage.message;
    var outcome :| BackwardStep(nodes[i], s.held[i], message, t.held[i], outcome)
      && t.stage == StageAfter(outcome, i);
    BackwardStepKeeps(nodes, s.held, t.held, i, message, outcome);
  }
}
