/**
 * Where the satoshi go: over a finished round the values that the onions brought in are the values
 * of the destination outputs, plus what the operators paid themselves, plus the kernel fees.
 */
module Ledger {
  import opened Wrappers
  import opened Bytes
  import opened Curve
  import opened Sums
  import opened Mweb
  import opened OnionCodec
  import opened SwapSpec
  import opened Balance
  import opened Round
  import opened RoundTheorems
  import opened MlnRoute
  import opened Builder

  /* Which outputs the transaction has */

  /** The outputs that operators create for themselves. */
  function Owned(values: seq<nat>, keys: seq<Bytes32>): seq<MwebOutput>
    requires |values| == |keys|
  {
    seq(|values|, i requires 0 <= i < |values| => OwnOutput(values[i], keys[i]).0)
  }

  /** Every node from k on keeps what its 64-bit sum of fees comes to beyond the common fee. */
  ghost predicate KeepsRest(nodes: seq<Node>, held: seq<Held>, k: nat, fee: nat, values: seq<nat>) {
    && k + |values| == |nodes| == |held|
    && forall j :: 0 <= j < |values| ==> EarnedAt(nodes, held, k + j, fee + values[j])
  }

  ghost predicate EarnedAt(nodes: seq<Node>, held: seq<Held>, j: nat, earned: int) {
    j < |nodes| == |held| && FeeTotal(nodes[j].peel, held[j]) % U64 == earned
  }

  /** The proofs of an output verify. */
  predicate Sound(o: MwebOutput) {
    o.rangeProof.Some? && RangeProofVerifies(o.rangeProof.value, o.commitment, o.message) && OutputSigVerifies(o)
  }

  /** The collected outputs are the sound destinations of the last node's onions and the operators' own. */
  ghost predicate EnteredAs(
    nodes: seq<Node>, held: seq<Held>, k: nat, fee: nat, outputs: seq<MwebOutput>,
    order: seq<Point>, dest: seq<MwebOutput>, values: seq<nat>, keys: seq<Bytes32>)
  {
    && nodes != [] && |nodes| == |held|
    && Visits(order, held[|nodes| - 1].Keys)
    && Outputs(nodes[|nodes| - 1].peel, held[|nodes| - 1], order, dest)
    && (forall o :: o in dest ==> Sound(o))
    && |values| == |keys|
    && KeepsRest(nodes, held, k, fee, values)
    && multiset(outputs) == multiset(dest + Owned(values, keys))
  }

  ghost predicate Entered(nodes: seq<Node>, held: seq<Held>, k: nat, fee: nat, outputs: seq<MwebOutput>) {
    exists order, dest, values, keys :: EnteredAs(nodes, held, k, fee, outputs, order, dest, values, keys)
  }

  /** The ledger of a round in progress. */
  ghost predicate LedgerInv(nodes: seq<Node>, s: State)
    requires Topology(nodes) && |s.held| == |nodes|
  {
    match s.stage
    case Backwarding(i, message) =>
      && i + 1 < |nodes|
      && ReadBackward(nodes[i], message).Some?
      && Entered(nodes, s.held, i + 1, nodes[0].share(|s.held[i + 1]| + |nodes|),
        ReadBackward(nodes[i], message).value.1)
    case Done(tx) => Entered(nodes, s.held, 0, nodes[0].share(|s.held[0]| + |nodes|), tx.outputs)
    case _ => true
  }

  lemma OwnedMore(value: nat, key: Bytes32, values: seq<nat>, keys: seq<Bytes32>)
    requires |values| == |keys|
    ensures Owned([value] + values, [key] + keys) == [OwnOutput(value, key).0] + Owned(values, keys)
  {
    hide CreateOutput;
  }

  lemma ShuffleIn(a: seq<MwebOutput>, b: seq<MwebOutput>, dest: seq<MwebOutput>, own: seq<MwebOutput>, o: MwebOutput)
    requires multiset(a) == multiset(dest + own) && multiset(b) == multiset(a + [o])
    ensures multiset(b) == multiset(dest + ([o] + own))
  {
  }

  /** A node adds its own output. */
  lemma NodeEnters(
    nodes: seq<Node>, held: seq<Held>, k: nat, fee: nat, outputs: seq<MwebOutput>, kernels: seq<MwebKernel>,
    value: nat, senderKey: Bytes32, outputs': seq<MwebOutput>, kernels': seq<MwebKernel>)
    requires k < |nodes| == |held| && Entered(nodes, held, k + 1, fee, outputs)
    requires FeeTotal(nodes[k].peel, held[k]) % U64 == value + fee
    requires Leaves(nodes[k].peel, held[k], value, fee, senderKey, outputs, kernels, outputs', kernels')
    ensures Entered(nodes, held, k, fee, outputs')
  {
    hide EnteredAs, FeeTotal, Leaves, OwnOutput;
    OwnAdded(nodes[k].peel, held[k], value, fee, senderKey, outputs, kernels, outputs', kernels');
    var order, dest, values, keys :| EnteredAs(nodes, held, k + 1, fee, outputs, order, dest, values, keys);
    EntersAs(nodes, held, k, fee, outputs, order, dest, values, keys, value, senderKey, outputs');
  }

  lemma EntersAs(
    nodes: seq<Node>, held: seq<Held>, k: nat, fee: nat, outputs: seq<MwebOutput>,
    order: seq<Point>, dest: seq<MwebOutput>, values: seq<nat>, keys: seq<Bytes32>,
    value: nat, senderKey: Bytes32, outputs': seq<MwebOutput>)
    requires EnteredAs(nodes, held, k + 1, fee, outputs, order, dest, values, keys)
    requires EarnedAt(nodes, held, k, fee + value)
    requires multiset(outputs') == multiset(outputs + [OwnOutput(value, senderKey).0])
    ensures EnteredAs(nodes, held, k, fee, outputs', order, dest, [value] + values, [senderKey] + keys)
  {
    hide Outputs, Visits, EarnedAt, OwnOutput, Owned, KeepsRest;
    OwnedMore(value, senderKey, values, keys);
    ShuffleIn(outputs, outputs', dest, Owned(values, keys), OwnOutput(value, senderKey).0);
    KeptMore(nodes, held, k, fee, value, values);
  }

  lemma OwnAdded(
    peel: Peeler, held: Held, value: nat, fee: nat, senderKey: Bytes32,
    outputs: seq<MwebOutput>, kernels: seq<MwebKernel>, outputs': seq<MwebOutput>, kernels': seq<MwebKernel>)
    requires Leaves(peel, held, value, fee, senderKey, outputs, kernels, outputs', kernels')
    ensures multiset(outputs') == multiset(outputs + [OwnOutput(value, senderKey).0])
  {
    hide OwnOutput, OwnKernel, SumSet;
  }

  lemma KeptMore(nodes: seq<Node>, held: seq<Held>, k: nat, fee: nat, value: nat, values: seq<nat>)
    requires KeepsRest(nodes, held, k + 1, fee, values) && EarnedAt(nodes, held, k, fee + value)
    ensures KeepsRest(nodes, held, k, fee, [value] + values)
  {
    hide EarnedAt;
    forall j | 0 <= j < |[value] + values| ensures EarnedAt(nodes, held, k + j, fee + ([value] + values)[j]) {
      if j > 0 {
        assert EarnedAt(nodes, held, k + 1 + (j - 1), fee + values[j - 1]);
      }
    }
  }

  /** What was collected does not depend on nodes before k. */
  lemma EnteredFrame(nodes: seq<Node>, before: seq<Held>, held: seq<Held>, i: nat, fee: nat, outputs: seq<MwebOutput>)
    requires ChangedOnly(i, before, held) && i + 1 < |nodes| && Entered(nodes, before, i + 1, fee, outputs)
    ensures Entered(nodes, held, i + 1, fee, outputs)
  {
    hide Outputs, Visits, FeeTotal;
    var order, dest, values, keys :| EnteredAs(nodes, before, i + 1, fee, outputs, order, dest, values, keys);
    forall j | 0 <= j < |values| ensures EarnedAt(nodes, held, i + 1 + j, fee + values[j]) {
      assert EarnedAt(nodes, before, i + 1 + j, fee + values[j]);
    }
    assert EnteredAs(nodes, held, i + 1, fee, outputs, order, dest, values, keys);
  }

  /** The last node starts the ledger with its survivors' destinations. */
  lemma LastEnters(nodes: seq<Node>, held: seq<Held>, fee: nat, outputs: seq<MwebOutput>, order: seq<Point>)
    requires nodes != [] && |nodes| == |held|
    requires Visits(order, held[|nodes| - 1].Keys)
      && Outputs(nodes[|nodes| - 1].peel, held[|nodes| - 1], order, outputs)
    requires forall o :: o in outputs ==> Sound(o)
    ensures Entered(nodes, held, |nodes|, fee, outputs)
  {
    hide Outputs, Visits;
    assert outputs + Owned([], []) == outputs;
    assert EnteredAs(nodes, held, |nodes|, fee, outputs, order, outputs, [], []);
  }

  /** The node's answer carries the ledger on. */
  ghost predicate Answered(nodes: seq<Node>, held: seq<Held>, i: nat, fee: nat, outcome: Outcome)
    requires Topology(nodes) && i < |nodes|
  {
    && (outcome.Finalized? ==> i == 0 && Entered(nodes, held, 0, fee, outcome.tx.outputs))
    && (outcome.SendBackward? && i > 0 ==>
          && ReadBackward(nodes[i - 1], outcome.message).Some?
          && Entered(nodes, held, i, fee, ReadBackward(nodes[i - 1], outcome.message).value.1))
  }

  lemma NodeAnswers(
    nodes: seq<Node>, held: seq<Held>, i: nat, outputs: seq<MwebOutput>, kernels: seq<MwebKernel>, outcome: Outcome)
    requires Topology(nodes) && i < |nodes| == |held|
    requires |outputs| == |held[i]| + |nodes| - 1 - i && |kernels| == |nodes| - 1 - i
    requires BackwardOutcome(nodes[i], held[i], outputs, kernels, outcome)
    requires Entered(nodes, held, i + 1, nodes[0].share(|held[i]| + |nodes|), outputs)
    ensures Answered(nodes, held, i, nodes[0].share(|held[i]| + |nodes|), outcome)
  {
    hide Entered, Leaves, FeeTotal, ReadBackward, Spends;
    var fee := nodes[0].share(|held[i]| + |nodes|);
    var earned := FeeTotal(nodes[i].peel, held[i]) % U64;
    SettlesExactly(nodes, i, held[i], outputs, kernels, earned, outcome);
    if earned >= fee {
      var value := earned - fee;
      var senderKey, outputs', kernels' :|
        Leaves(nodes[i].peel, held[i], value, fee, senderKey, outputs, kernels, outputs', kernels')
        && Delivers(nodes[i], held[i], outputs', kernels', outcome);
      NodeEnters(nodes, held, i, fee, outputs, kernels, value, senderKey, outputs', kernels');
      LeavesCounts(nodes[i].peel, held[i], value, fee, senderKey, outputs, kernels, outputs', kernels');
      if i > 0 && outcome.SendBackward? {
        var commits :| Visits(commits, held[i].Keys)
          && outcome == SendBackward(BackwardMessage(commits, outputs', kernels'));
        ReadBackwardBack(nodes[i - 1], commits, outputs', kernels');
      }
    }
  }

  /** At the last node the ledger starts and the node adds its own. */
  lemma LastAnswers(
    nodes: seq<Node>, held: seq<Held>, i: nat, outputs: seq<MwebOutput>, order: seq<Point>, outcome: Outcome)
    requires Topology(nodes) && i + 1 == |nodes| == |held|
    requires Visits(order, held[i].Keys) && Outputs(nodes[i].peel, held[i], order, outputs)
    requires forall o :: o in outputs ==> Sound(o)
    requires BackwardOutcome(nodes[i], held[i], outputs, [], outcome)
    ensures Answered(nodes, held, i, nodes[0].share(|held[i]| + |nodes|), outcome)
  {
    hide Entered, BackwardOutcome, Answered;
    LastEnters(nodes, held, nodes[0].share(|held[i]| + |nodes|), outputs, order);
    DestinationCount(nodes[i].peel, held[i], order, outputs);
    NodeAnswers(nodes, held, i, outputs, [], outcome);
  }

  lemma ForwardAnswers(nodes: seq<Node>, held: seq<Held>, i: nat, all: Held, outcome: Outcome)
    requires Topology(nodes) && i < |nodes| == |held|
    requires ForwardOutcome(nodes[i], all, held[i], outcome)
    ensures Answered(nodes, held, i, nodes[0].share(|held[i]| + |nodes|), outcome)
  {
    hide PeelOutcome, BackwardOutcome, Answered;
    var out, outputs, order :|
      PeelOutcome(nodes[i], all, held[i], out, outputs, order)
      && if nodes[i].Last() then BackwardOutcome(nodes[i], held[i], outputs, [], outcome)
         else outcome == Failed(Unreachable) || SendsOn(out, outcome);
    if nodes[i].Last() {
      PeelVisits(nodes[i], all, held[i], out, outputs, order);
      LastAnswers(nodes, held, i, outputs, order, outcome);
    } else {
      NoAnswer(nodes, held, i, nodes[0].share(|held[i]| + |nodes|), outcome);
    }
  }

  lemma PeelVisits(node: Node, all: Held, held: Held, out: Held, outputs: seq<MwebOutput>, order: seq<Point>)
    requires PeelOutcome(node, all, held, out, outputs, order) && node.Last()
    ensures Visits(order, held.Keys) && Outputs(node.peel, held, order, outputs)
    ensures forall o :: o in outputs ==> Sound(o)
  {
    hide Visits, AllPeel, Linked, Covered, Next, NextStealth;
    forall i | 0 <= i < |outputs| ensures Sound(outputs[i]) {
      assert order[i] in held;
      assert Passes(node, order[i], held[order[i]]);
    }
  }

  lemma NoAnswer(nodes: seq<Node>, held: seq<Held>, i: nat, fee: nat, outcome: Outcome)
    requires Topology(nodes) && i < |nodes| && (outcome.SendForward? || outcome.Failed?)
    ensures Answered(nodes, held, i, fee, outcome)
  {
  }

  lemma BackwardAnswers(
    nodes: seq<Node>, before: seq<Held>, held: seq<Held>, i: nat, message: Message, outcome: Outcome)
    requires Topology(nodes) && |before| == |nodes| == |held|
    requires BackwardingInv(nodes, before, i, message) && ChangedOnly(i, before, held)
    requires BackwardStep(nodes[i], before[i], message, held[i], outcome)
    requires i + 1 < |nodes| && ReadBackward(nodes[i], message).Some?
    requires Entered(nodes, before, i + 1, nodes[0].share(|before[i + 1]| + |nodes|),
      ReadBackward(nodes[i], message).value.1)
    ensures Answered(nodes, held, i, nodes[0].share(|held[i]| + |nodes|), outcome)
  {
    hide CommitCheck, StealthCheck, Balanced, StealthBalanced, ReadBackward, FeeTotal, Kept, Linked, Delivers,
      Visits, Forwarded, ForwardedUpTo, AgreedFrom, OneToOne, Part, BackwardStep, BackwardOutcome, Entered,
      Answered, Settles, Lost;
    HasArrived(nodes, before, i, message);
    var (commits, outputs, kernels) := ReadBackward(nodes[i], message).value;
    KeptChecked(nodes, i, before[i], before[i + 1], commits, outputs, kernels);
    KeptAnswers(nodes[i], before[i], message, held[i], outcome, commits, outputs, kernels);
    if CommitCheck(nodes[i].peel, held[i], outputs, kernels) {
      EnteredFrame(nodes, before, held, i, nodes[0].share(|before[i + 1]| + |nodes|), outputs);
      NodeAnswers(nodes, held, i, outputs, kernels, outcome);
    } else {
      NoAnswer(nodes, held, i, nodes[0].share(|held[i]| + |nodes|), outcome);
    }
  }

  lemma AnsweredInv(nodes: seq<Node>, t: State, i: nat, outcome: Outcome)
    requires Topology(nodes) && i < |nodes| == |t.held| && t.stage == StageAfter(outcome, i)
    requires Answered(nodes, t.held, i, nodes[0].share(|t.held[i]| + |nodes|), outcome)
    ensures LedgerInv(nodes, t)
  {
    hide Entered, ReadBackward;
  }

  lemma StepLedger(nodes: seq<Node>, loaded: Held, s: State, t: State)
    requires Topology(nodes) && Inv(nodes, loaded, s) && LedgerInv(nodes, s) && RunStep(nodes, s, t)
    ensures |t.held| == |nodes| && LedgerInv(nodes, t)
  {
    hide ForwardOutcome, BackwardStep, DoneInv, AbortedInv, FeeTotal, ReadForward, Entered, ReadBackward,
      ForwardingInv, BackwardingInv, Part, Answered, LedgerInv, ChangedOnly;
    match s.stage
    case Forwarding(i, message) =>
      var outcome :| ForwardStep(nodes[i], s.held[i], message, t.held[i], outcome)
        && t.stage == StageAfter(outcome, i);
      ForwardReads(nodes, s.held, i, message);
      ForwardAnswers(nodes, t.held, i, ReadForward(message).value, outcome);
      AnsweredInv(nodes, t, i, outcome);
    case Backwarding(i, message) =>
      var outcome :| BackwardStep(nodes[i], s.held[i], message, t.held[i], outcome)
        && t.stage == StageAfter(outcome, i);
      LedgerAt(nodes, s, i, message);
      BackwardAnswers(nodes, s.held, t.held, i, message, outcome);
      AnsweredInv(nodes, t, i, outcome);
    case _ =>
  }

  lemma ForwardReads(nodes: seq<Node>, held: seq<Held>, i: nat, message: Message)
    requires Topology(nodes) && |held| == |nodes| && ForwardingInv(nodes, held, i, message)
    ensures i > 0 && ReadForward(message).Some?
  {
    hide ForwardedUpTo, PeeledAt, Forwarded, ReadForward;
  }

  lemma LedgerAt(nodes: seq<Node>, s: State, i: nat, message: Message)
    requires Topology(nodes) && |s.held| == |nodes| && LedgerInv(nodes, s) && s.stage == Backwarding(i, message)
    ensures i + 1 < |nodes| && ReadBackward(nodes[i], message).Some?
    ensures Entered(nodes, s.held, i + 1, nodes[0].share(|s.held[i + 1]| + |nodes|),
      ReadBackward(nodes[i], message).value.1)
  {
    hide Entered, ReadBackward;
  }

  lemma StartLedger(nodes: seq<Node>, loaded: Held, s: State)
    requires Topology(nodes) && Start(nodes, loaded, s)
    ensures LedgerInv(nodes, s)
  {
    hide ForwardOutcome, FeeTotal, Entered, LedgerInv, Answered;
    var outcome :| ForwardOutcome(nodes[0], loaded, s.held[0], outcome) && s.stage == StageAfter(outcome, 0);
    ForwardAnswers(nodes, s.held, 0, loaded, outcome);
    AnsweredInv(nodes, s, 0, outcome);
  }

  lemma {:induction false} RunLedger(nodes: seq<Node>, loaded: Held, run: seq<State>, k: nat)
    requires Topology(nodes) && Run(nodes, loaded, run) && k < |run|
    ensures |run[k].held| == |nodes| && LedgerInv(nodes, run[k])
  {
    hide Inv, LedgerInv, Step;
    if k == 0 {
      StartLedger(nodes, loaded, run[0]);
    } else {
      RunLedger(nodes, loaded, run, k - 1);
      RunKeeps(nodes, loaded, run, k - 1);
      assert RunStep(nodes, run[k - 1], run[k - 1 + 1]);
      StepLedger(nodes, loaded, run[k - 1], run[k]);
    }
  }

  /* What they are worth */

  /** A reading of how much an output is worth. */
  type Valuation = MwebOutput -> int

  /** What an onion is worth at node j: the fees it still pays and its destination output. */
  ghost function Worth(nodes: seq<Node>, held: seq<Held>, valueOf: Valuation, j: nat, c: Point): int
    requires j < |nodes| == |held|
    decreases |nodes| - j
  {
    if c !in held[j] || !Peels(nodes[j].peel, held[j][c]) then 0
    else
      var hop := HopOf(nodes[j].peel, held[j][c]);
      hop.fee + (if j + 1 < |nodes| then Worth(nodes, held, valueOf, j + 1, Next(nodes[j].peel, c, held[j][c]))
                 else if hop.output.Some? then valueOf(hop.output.value) else 0)
  }

  ghost function WorthVec(nodes: seq<Node>, held: seq<Held>, valueOf: Valuation, j: nat): Point -> Vec
    requires j < |nodes| == |held|
  {
    (c: Point) => Vec(0, Worth(nodes, held, valueOf, j, c))
  }

  ghost function WorthTotal(nodes: seq<Node>, held: seq<Held>, valueOf: Valuation, j: nat): int
    requires j < |nodes| == |held|
  {
    SumSet(held[j].Keys, WorthVec(nodes, held, valueOf, j)).v
  }

  function ValueVec(valueOf: Valuation): MwebOutput -> Vec {
    (o: MwebOutput) => Vec(0, valueOf(o))
  }

  function Sum(values: seq<nat>): nat {
    if values == [] then 0 else values[0] + Sum(values[1..])
  }

  /** Fees only, per commitment. */
  ghost function FeeVec(peel: Peeler, held: Held): Point -> Vec {
    (c: Point) => if c in held && Peels(peel, held[c]) then Vec(0, HopOf(peel, held[c]).fee) else Zero
  }

  lemma {:induction false} FeeVecTotal(peel: Peeler, held: Held, s: set<Point>)
    requires AllPeel(peel, held) && s <= held.Keys
    ensures SumSet(s, FeeVec(peel, held)).v == 0 - SumSet(s, HopVec(peel, held)).v
  {
    if s != {} {
      var c :| c in s;
      SumSetRemove(s, c, FeeVec(peel, held));
      SumSetRemove(s, c, HopVec(peel, held));
      FeeVecTotal(peel, held, s - {c});
    }
  }

  /** One node further: its fees come off. */
  lemma WorthStep(nodes: seq<Node>, held: seq<Held>, valueOf: Valuation, j: nat)
    requires j + 1 < |nodes| == |held| && LinkedAt(nodes, held, j)
    ensures WorthTotal(nodes, held, valueOf, j) ==
      FeeTotal(nodes[j].peel, held[j]) + WorthTotal(nodes, held, valueOf, j + 1)
  {
    hide Worth, SumSet, OneToOne, Linked;
    var peel, batch := nodes[j].peel, held[j];
    var nexts: map<Point, Point> := map c | c in batch :: Next(peel, c, batch[c]);
    var rest := RestVec(nexts, WorthVec(nodes, held, valueOf, j + 1));
    RestWorth(nodes, held, valueOf, j, nexts);
    SumSetPlus(batch.Keys, FeeVec(peel, batch), rest, WorthVec(nodes, held, valueOf, j));
    FeeVecTotal(peel, batch, batch.Keys);
    LinkedImage(peel, batch, held[j + 1], nexts);
    SumImage(nexts, rest, WorthVec(nodes, held, valueOf, j + 1));
  }

  lemma LinkedImage(peel: Peeler, held: Held, next: Held, nexts: map<Point, Point>)
    requires AllPeel(peel, held) && Linked(peel, held, next)
    requires nexts == map c | c in held :: Next(peel, c, held[c])
    ensures nexts.Keys == held.Keys && Image(nexts) == next.Keys && Injective(nexts)
  {
    NextsImage(peel, held, nexts);
  }

  function RestVec(nexts: map<Point, Point>, f: Point -> Vec): Point -> Vec {
    (c: Point) => if c in nexts then f(nexts[c]) else Zero
  }

  lemma {:induction false} RestWorth(
    nodes: seq<Node>, held: seq<Held>, valueOf: Valuation, j: nat, nexts: map<Point, Point>)
    requires j + 1 < |nodes| == |held| && AllPeel(nodes[j].peel, held[j])
    requires nexts == map c | c in held[j] :: Next(nodes[j].peel, c, held[j][c])
    ensures var fees, rest := FeeVec(nodes[j].peel, held[j]), RestVec(nexts, WorthVec(nodes, held, valueOf, j + 1));
            forall c :: c in held[j] ==> WorthVec(nodes, held, valueOf, j)(c) == fees(c).Plus(rest(c))
  {
    hide Next;
  }

  function DestinationVec(peel: Peeler, held: Held, valueOf: Valuation): Point -> Vec {
    (c: Point) => if c in held && Peels(peel, held[c]) && HopOf(peel, held[c]).output.Some?
         then Vec(0, valueOf(HopOf(peel, held[c]).output.value)) else Zero
  }

  lemma {:induction false} LastWorth(nodes: seq<Node>, held: seq<Held>, valueOf: Valuation, j: nat)
    requires j + 1 == |nodes| == |held| && AllPeel(nodes[j].peel, held[j])
    ensures var fees, goes := FeeVec(nodes[j].peel, held[j]), DestinationVec(nodes[j].peel, held[j], valueOf);
            forall c :: c in held[j] ==> WorthVec(nodes, held, valueOf, j)(c) == fees(c).Plus(goes(c))
  {
  }

  /** At the last node: the fees and the destinations. */
  lemma WorthLast(
    nodes: seq<Node>, held: seq<Held>, valueOf: Valuation, j: nat, order: seq<Point>, dest: seq<MwebOutput>)
    requires j + 1 == |nodes| == |held| && AllPeel(nodes[j].peel, held[j])
    requires Visits(order, held[j].Keys) && Outputs(nodes[j].peel, held[j], order, dest)
    ensures WorthTotal(nodes, held, valueOf, j) ==
      FeeTotal(nodes[j].peel, held[j]) + SumSeq(dest, ValueVec(valueOf)).v
  {
    hide SumSet, SumSeq;
    var peel, batch := nodes[j].peel, held[j];
    var goes := DestinationVec(peel, batch, valueOf);
    LastWorth(nodes, held, valueOf, j);
    SumSetPlus(batch.Keys, FeeVec(peel, batch), goes, WorthVec(nodes, held, valueOf, j));
    FeeVecTotal(peel, batch, batch.Keys);
    SumVisit(order, batch.Keys, goes);
    SumSeqMap(order, dest, goes, ValueVec(valueOf));
  }

  /** What the 64-bit sums of fees from node j on lost in all. */
  ghost function LostFrom(nodes: seq<Node>, held: seq<Held>, j: nat): int
    requires j <= |nodes| == |held|
    decreases |nodes| - j
  {
    if j == |nodes| then 0 else Lost(nodes[j].peel, held[j]) + LostFrom(nodes, held, j + 1)
  }

  /** Where every node's fees fit 64 bits, and only there, nothing is lost. */
  lemma {:induction false} NothingLostExactly(nodes: seq<Node>, held: seq<Held>, j: nat)
    requires j <= |nodes| == |held|
    ensures LostFrom(nodes, held, j) >= 0
    ensures LostFrom(nodes, held, j) == 0 <==> forall k :: j <= k < |nodes| ==> FeeTotal(nodes[k].peel, held[k]) < U64
    decreases |nodes| - j
  {
    hide FeeTotal, Lost;
    if j < |nodes| {
      NothingLostExactly(nodes, held, j + 1);
      LostExactly(nodes[j].peel, held[j]);
    }
  }

  lemma LostExactly(peel: Peeler, held: Held)
    ensures Lost(peel, held) >= 0
    ensures Lost(peel, held) == 0 <==> FeeTotal(peel, held) < U64
  {
    hide FeeTotal;
    FeeTotalNat(peel, held);
    FitsLosesNothing(peel, held);
    ModuloSmaller(FeeTotal(peel, held));
  }

  lemma ModuloSmaller(x: nat)
    ensures x % U64 <= x && x % U64 < U64
  {
  }

  /** From node j on: destinations, operators, n - j fees, and what was lost. */
  lemma {:induction false} WorthFrom(
    nodes: seq<Node>, held: seq<Held>, valueOf: Valuation, j: nat, m: nat, fee: nat,
    order: seq<Point>, dest: seq<MwebOutput>, values: seq<nat>)
    requires j < |nodes| == |held| && AgreedFrom(nodes, held, j, m)
    requires Visits(order, held[|nodes| - 1].Keys) && Outputs(nodes[|nodes| - 1].peel, held[|nodes| - 1], order, dest)
    requires KeepsRest(nodes, held, j, fee, values)
    ensures WorthTotal(nodes, held, valueOf, j)
         == SumSeq(dest, ValueVec(valueOf)).v + Sum(values) + |values| * fee + LostFrom(nodes, held, j)
    decreases |nodes| - j
  {
    hide WorthTotal, FeeTotal, SettledAt, Visits, Outputs, LinkedAt, CountAt, SumSeq;
    assert PeeledAt(nodes, held, j);
    assert EarnedAt(nodes, held, j + 0, fee + values[0]);
    assert |values| * fee == |values[1..]| * fee + fee;
    if j + 1 == |nodes| {
      WorthLast(nodes, held, valueOf, j, order, dest);
      assert values[1..] == [];
    } else {
      assert LinkedAt(nodes, held, j);
      WorthStep(nodes, held, valueOf, j);
      KeptTail(nodes, held, j, fee, values);
      WorthFrom(nodes, held, valueOf, j + 1, m, fee, order, dest, values[1..]);
    }
  }

  lemma KeptTail(nodes: seq<Node>, held: seq<Held>, k: nat, fee: nat, values: seq<nat>)
    requires KeepsRest(nodes, held, k, fee, values) && values != []
    ensures KeepsRest(nodes, held, k + 1, fee, values[1..])
  {
    hide EarnedAt;
    forall j | 0 <= j < |values[1..]| ensures EarnedAt(nodes, held, k + 1 + j, fee + values[1..][j]) {
      assert EarnedAt(nodes, held, k + (j + 1), fee + values[j + 1]);
    }
  }

  /**
   * The exact ledger of a finished round, for any number of nodes, any batch, any drops and any fees:
   * the transaction's outputs are the destinations of the surviving onions and one output per operator,
   * and, in integers, what the survivors were worth is what the destinations are worth, plus the
   * operators' values, plus the kernel fees, plus what the 64-bit sums of fees lost.
   */
  lemma ValueLedger(nodes: seq<Node>, loaded: Held, run: seq<State>, tx: MwebTx, valueOf: Valuation)
    returns (dest: seq<MwebOutput>, values: seq<nat>, keys: seq<Bytes32>)
    requires Topology(nodes) && Run(nodes, loaded, run) && run[|run| - 1].stage == Done(tx)
    ensures |run[|run| - 1].held| == |nodes| == |values| == |keys|
    ensures |dest| == |run[|run| - 1].held[0]|
    ensures multiset(tx.outputs) == multiset(dest + Owned(values, keys))
    ensures WorthTotal(nodes, run[|run| - 1].held, valueOf, 0)
         == SumSeq(dest, ValueVec(valueOf)).v + Sum(values) + KernelFees(tx.kernels)
            + LostFrom(nodes, run[|run| - 1].held, 0)
  {
    hide SettledAt, LostFrom, WorthTotal, FeeTotal, Visits, Outputs, LinkedAt, PeeledAt, SumSeq, Balanced,
      StealthBalanced, Spends, Step, Start, Owned;
    RunNonempty(nodes, loaded, run);
    RunKeeps(nodes, loaded, run, |run| - 1);
    RunLedger(nodes, loaded, run, |run| - 1);
    var held := run[|run| - 1].held;
    var fee := nodes[0].share(|held[0]| + |nodes|);
    var order;
    order, dest, values, keys :| EnteredAs(nodes, held, 0, fee, tx.outputs, order, dest, values, keys);
    WorthFrom(nodes, held, valueOf, 0, |held[0]|, fee, order, dest, values);
    EqualFees(tx.kernels, fee);
    assert CountAt(held, |nodes| - 1, |held[0]|);
    DestinationCount(nodes[|nodes| - 1].peel, held[|nodes| - 1], order, dest);
  }

  lemma DestinationCount(peel: Peeler, held: Held, order: seq<Point>, dest: seq<MwebOutput>)
    requires Visits(order, held.Keys) && Outputs(peel, held, order, dest)
    ensures |dest| == |held|
  {
    VisitsElements(order, held.Keys);
    assert |held.Keys| == |held|;
  }

  /* Built onions */

  /** A built onion whose route is these nodes' and whose output is worth what the builder put in it. */
  ghost predicate BuiltAs(
    nodes: seq<Node>, privs: seq<PrivKey>, valueOf: Valuation, c: Point, o: OnionEtc,
    req: Request, peerPub: seq<seq<byte>>, coin: Coin, address: StealthAddress, ephemeral: seq<PrivKey>, d: Draw)
  {
    && Built(req, peerPub, coin, address, ephemeral, d, o.onion)
    && c == CoinCommitment(coin)
    && RouteNodes(nodes, privs, peerPub)
    && |req.route| == ExpectedHops && Fees(req.route) < U64
    && var output := LastOutput(req, address, d).0;
       && Serializable(output) && |SerializeOutput(output)| + 106 < U64
       && valueOf(output) == OutValue(req)
  }

  ghost predicate BuiltFor(
    nodes: seq<Node>, privs: seq<PrivKey>, valueOf: Valuation, c: Point, o: OnionEtc, value: int)
  {
    exists req, peerPub, coin, address, ephemeral, d ::
      BuiltAs(nodes, privs, valueOf, c, o, req, peerPub, coin, address, ephemeral, d) && coin.value == value
  }

  /** The worth of an onion that three nodes peel in turn. */
  lemma {:induction false} ThreeWorth(
    nodes: seq<Node>, held: seq<Held>, valueOf: Valuation, c: Point, hops: seq<Hop>, r1: Onion, r2: Onion, r3: Onion)
    requires |nodes| == |held| == |hops| == 3 && c in held[0]
    requires LinkedAt(nodes, held, 0) && LinkedAt(nodes, held, 1)
    requires nodes[0].peel(held[0][c].onion) == Ok(Peeled(hops[0], r1))
    requires nodes[1].peel(r1) == Ok(Peeled(hops[1], r2))
    requires nodes[2].peel(r2) == Ok(Peeled(hops[2], r3))
    requires hops[2].output.Some?
    ensures Worth(nodes, held, valueOf, 0, c) ==
      hops[0].fee + hops[1].fee + hops[2].fee + valueOf(hops[2].output.value)
  {
    hide OneToOne, NextKeys, Next;
    var c1 := Next(nodes[0].peel, c, held[0][c]);
    assert c1 in held[1] && held[1][c1] == NextOnion(nodes[0].peel, held[0][c]);
    var c2 := Next(nodes[1].peel, c1, held[1][c1]);
    assert c2 in held[2] && held[2][c2] == NextOnion(nodes[1].peel, held[1][c1]);
    assert Worth(nodes, held, valueOf, 2, c2) == hops[2].fee + valueOf(hops[2].output.value);
    assert Worth(nodes, held, valueOf, 1, c1) == hops[1].fee + Worth(nodes, held, valueOf, 2, c2);
  }

  /** A built onion that survives is worth exactly its coin. */
  lemma {:induction false} BuiltWorth(
    nodes: seq<Node>, privs: seq<PrivKey>, held: seq<Held>, valueOf: Valuation, c: Point, value: int)
    requires |nodes| == |held| == |privs| == 3 && PeelWith(nodes, privs)
    requires LinkedAt(nodes, held, 0) && LinkedAt(nodes, held, 1)
    requires c in held[0] && BuiltFor(nodes, privs, valueOf, c, held[0][c], value)
    ensures Worth(nodes, held, valueOf, 0, c) == value
  {
    hide Worth, LinkedAt, Wrapped, Inner, CipherKeys, CreateOutput, Kernel2, Stealth2, Fees, PeelWith, Serializable,
      ValidHop, FitsWord;
    var req, peerPub, coin, address, ephemeral, d :|
      BuiltAs(nodes, privs, valueOf, c, held[0][c], req, peerPub, coin, address, ephemeral, d) && coin.value == value;
    var hops := RouteHops(req, coin, address, d);
    var keys := CipherKeys(ephemeral, peerPub).value;
    HopsValid(req, coin, address, d);
    ThreeLayers(nodes, privs, peerPub, ephemeral, hops, held[0][c].onion);
    ThreeWorth(nodes, held, valueOf, c, hops, Inner(ephemeral, keys, hops, 1), Inner(ephemeral, keys, hops, 2),
      Inner(ephemeral, keys, hops, 3));
    ThreeFees(req);
  }

  /**
   * The ledger in coins: when every surviving onion was built for a coin, the values of the coins that
   * the transaction spends are the values of its destinations, its operator outputs and its fees, plus
   * what the 64-bit sums of fees lost.
   */
  lemma CoinLedger(
    nodes: seq<Node>, privs: seq<PrivKey>, loaded: Held, run: seq<State>, tx: MwebTx, valueOf: Valuation,
    coinOf: Point -> int)
    returns (dest: seq<MwebOutput>, values: seq<nat>, keys: seq<Bytes32>)
    requires Topology(nodes) && Run(nodes, loaded, run) && run[|run| - 1].stage == Done(tx)
    requires |nodes| == |privs| == 3 && PeelWith(nodes, privs)
    requires |run[|run| - 1].held| == |nodes|
    requires var held := run[|run| - 1].held;
             forall c :: c in held[0] ==> BuiltFor(nodes, privs, valueOf, c, held[0][c], coinOf(c))
    ensures |values| == |keys| == 3 && multiset(tx.outputs) == multiset(dest + Owned(values, keys))
    ensures SumSet(run[|run| - 1].held[0].Keys, (c: Point) => Vec(0, coinOf(c))).v
         == SumSeq(dest, ValueVec(valueOf)).v + Sum(values) + KernelFees(tx.kernels)
            + LostFrom(nodes, run[|run| - 1].held, 0)
  {
    hide SettledAt, LostFrom, Worth, BuiltFor, PeelWith, SumSet, SumSeq, Owned, Step, Start, Balanced,
      StealthBalanced, Spends, Collected, PeeledAt, LinkedAt, KernelFees;
    dest, values, keys := ValueLedger(nodes, loaded, run, tx, valueOf);
    RunKeeps(nodes, loaded, run, |run| - 1);
    var held := run[|run| - 1].held;
    assert LinkedAt(nodes, held, 0) && LinkedAt(nodes, held, 1);
    forall c | c in held[0] ensures Worth(nodes, held, valueOf, 0, c) == coinOf(c) {
      BuiltWorth(nodes, privs, held, valueOf, c, coinOf(c));
    }
    SumSetEqual(held[0].Keys, WorthVec(nodes, held, valueOf, 0), (c: Point) => Vec(0, coinOf(c)));
  }
}
