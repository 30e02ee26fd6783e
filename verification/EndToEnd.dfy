/**
 * From the taker to the transaction: a batch of well-built onions whose onions never collide goes round
 * and is spent to the last one.
 */
module EndToEnd {
  import opened Wrappers
  import opened Bytes
  import opened Curve
  import opened Sums
  import opened Mweb
  import opened SwapSpec
  import opened Balance
  import opened FeeShares
  import opened Round
  import opened RoundTheorems
  import opened Progress
  import opened Ledger

  /* Batches that pass everywhere */

  /** At node j all of the batch passes, no two collide, and the next batch is this one hop further. */
  ghost predicate TravelsAt(nodes: seq<Node>, batches: seq<Held>, j: nat) {
    && j < |nodes| == |batches|
    && AllPass(nodes[j], batches[j])
    && PeelsApart(nodes[j].peel, batches[j])
    && (j + 1 < |nodes| ==> Linked(nodes[j].peel, batches[j], batches[j + 1]))
  }

  ghost predicate AllPass(node: Node, batch: Held) {
    forall c :: c in batch ==> Passes(node, c, batch[c])
  }

  ghost predicate Travels(nodes: seq<Node>, batches: seq<Held>) {
    |nodes| == |batches| && forall j: nat :: j < |nodes| ==> TravelsAt(nodes, batches, j)
  }

  /**
   * The batch pays node j its share in 64 bits, and unless j is 0 the sum loses nothing, or a multiple of
   * H that is the identity.
   */
  ghost predicate PaysAt(nodes: seq<Node>, batches: seq<Held>, j: nat) {
    && j < |nodes| == |batches|
    && nodes[0].share(|batches[0]| + |nodes|) <= FeeTotal(nodes[j].peel, batches[j]) % U64
    && (j > 0 ==> Settles(Lost(nodes[j].peel, batches[j])))
  }

  ghost predicate PaysEverywhere(nodes: seq<Node>, batches: seq<Held>) {
    forall j: nat :: j < |nodes| ==> PaysAt(nodes, batches, j)
  }

  /** Nothing was dropped: the nodes reached hold their batches. */
  ghost predicate Whole(nodes: seq<Node>, batches: seq<Held>, s: State) {
    && |s.held| == |nodes| == |batches|
    && match s.stage
       case Forwarding(i, message) => i < |nodes| && HoldUpTo(batches, s.held, i)
         && ReadForward(message) == Some(batches[i])
       case Backwarding(i, _) => i < |nodes| && s.held == batches
       case Done(_) => s.held == batches
       case Aborted(failure, _) => failure == Unreachable || s.held == batches
       case _ => false
  }

  ghost predicate HoldUpTo(batches: seq<Held>, held: seq<Held>, i: nat) {
    i <= |batches| == |held| && forall j :: 0 <= j < i ==> held[j] == batches[j]
  }

  lemma LinkedUnique(peel: Peeler, held: Held, out: Held, next: Held)
    requires AllPeel(peel, held) && Linked(peel, held, out) && Linked(peel, held, next)
    ensures out == next
  {
    hide Next, NextOnion, OneToOne;
    forall d | d in out ensures d in next && out[d] == next[d] {
      assert d in NextKeys(peel, held);
    }
    assert out.Keys == next.Keys;
  }

  /** A node at which all pass and none collide keeps all and passes on the next batch. */
  lemma ForwardKeepsAll(node: Node, all: Held, held: Held, outcome: Outcome)
    requires node.Placed() && AllPass(node, all) && PeelsApart(node.peel, all)
    requires ForwardOutcome(node, all, held, outcome)
    ensures held == all
    ensures node.Last() ==> !outcome.SendForward?
    ensures !node.Last() ==> outcome.SendForward? || outcome == Failed(Unreachable)
    ensures forall next :: outcome.SendForward? && Linked(node.peel, all, next) ==>
      ReadForward(outcome.message) == Some(next)
  {
    hide BackwardOutcome, Passes, OneToOne, Linked, ReadForward;
    var out, outputs, order :|
      PeelOutcome(node, all, held, out, outputs, order)
      && if node.Last() then BackwardOutcome(node, held, outputs, [], outcome)
         else outcome == Failed(Unreachable) || SendsOn(out, outcome);
    AllSurvive(node, all, held, out);
    if node.Last() {
      NoForward(node, held, outputs, outcome);
    } else if outcome != Failed(Unreachable) {
      var commits :| Ascending(commits, out.Keys)
        && outcome == SendForward(ForwardMessage(commits, Pick(out, commits)));
      ReadForwardBack(out, commits);
      forall next | Linked(node.peel, all, next) ensures out == next {
        LinkedUnique(node.peel, all, out, next);
      }
    }
  }

  lemma NoForward(node: Node, held: Held, outputs: seq<MwebOutput>, outcome: Outcome)
    requires node.Placed() && BackwardOutcome(node, held, outputs, [], outcome)
    ensures !outcome.SendForward?
  {
    hide Leaves, FeeTotal;
  }

  lemma AllSurvive(node: Node, all: Held, held: Held, out: Held)
    requires AllPass(node, all) && PeelsApart(node.peel, all)
    requires Survive(node, all, held) && AllPeel(node.peel, held) && Linked(node.peel, held, out)
      && Covered(node, all, out)
    ensures held == all
  {
    hide Passes, Next, NextOnion;
    forall c | c in all ensures c in held {
      assert Next(node.peel, c, all[c]) in NextKeys(node.peel, held);
      var h :| h in held && Next(node.peel, h, held[h]) == Next(node.peel, c, all[c]);
    }
  }

  /** A node that holds its batch keeps all of it when the next one holds all of the next. */
  lemma BackwardKeepsAll(nodes: seq<Node>, before: seq<Held>, held: Held, i: nat, message: Message, outcome: Outcome)
    requires Topology(nodes) && |before| == |nodes|
    requires BackwardingInv(nodes, before, i, message)
    requires AllPeel(nodes[i].peel, before[i]) && Linked(nodes[i].peel, before[i], before[i + 1])
    requires BackwardStep(nodes[i], before[i], message, held, outcome)
    ensures held == before[i]
  {
    hide CommitCheck, StealthCheck, Balanced, StealthBalanced, ReadBackward, FeeTotal, Linked, Delivers,
      Visits, Collected, Forwarded, ForwardedUpTo, AgreedFrom, OneToOne, Part, BackwardStep, BackwardOutcome,
      Kept, BackwardingInv, AllPeel, PeelsApart, Checked, Settles, Lost;
    BackwardNext(nodes, before, i, message);
    HasArrived(nodes, before, i, message);
    var (commits, outputs, kernels) := ReadBackward(nodes[i], message).value;
    KeptChecked(nodes, i, before[i], before[i + 1], commits, outputs, kernels);
    KeptAnswers(nodes[i], before[i], message, held, outcome, commits, outputs, kernels);
    KeepsListed(nodes[i].peel, before[i], before[i + 1], commits);
  }

  lemma KeepsListed(peel: Peeler, all: Held, next: Held, commits: seq<Point>)
    requires AllPeel(peel, all) && Linked(peel, all, next) && Visits(commits, next.Keys)
    ensures Kept(peel, all, commits) == all
  {
    hide Next, NextOnion, OneToOne;
    VisitsElements(commits, next.Keys);
  }

  /** What the served node holds after the call is its batch. */
  lemma ServedHoldsBatch(nodes: seq<Node>, batches: seq<Held>, s: State, t: State)
    requires Topology(nodes) && Travels(nodes, batches) && Inv(nodes, batches[0], s) && Whole(nodes, batches, s)
    requires Step(nodes, s, t)
    ensures Whole(nodes, batches, t)
  {
    hide ForwardOutcome, BackwardStep, BackwardingInv, DoneInv, AbortedInv, Part, AllPass, PeelsApart, Linked,
      ReadForward, ForwardingInv;
    var i := Serving(s.stage);
    match s.stage {
      case Forwarding(_, message) =>
        var outcome :| ForwardStep(nodes[i], s.held[i], message, t.held[i], outcome)
          && t.stage == StageAfter(outcome, i);
        NotAtHead(nodes, s.held, i, message);
        assert TravelsAt(nodes, batches, i);
        ForwardKeepsAll(nodes[i], batches[i], t.held[i], outcome);
        ForwardStepKeeps(nodes, s.held, t.held, i - 1, message, outcome);
        StageKeepsWhole(nodes, batches, t, i, outcome);
      case Backwarding(_, message) =>
        var outcome :| BackwardStep(nodes[i], s.held[i], message, t.held[i], outcome)
          && t.stage == StageAfter(outcome, i);
        BackwardNext(nodes, s.held, i, message);
        assert TravelsAt(nodes, batches, i);
        ApartPeels(nodes[i].peel, batches[i]);
        BackwardKeepsAll(nodes, s.held, t.held[i], i, message, outcome);
        BackwardSendsBack(nodes[i], s.held[i], message, t.held[i], outcome);
        BackwardStepKeeps(nodes, s.held, t.held, i, message, outcome);
        StageKeepsWhole(nodes, batches, t, i, outcome);
    }
  }

  /** A node that holds its batch after the call, like all before and, when the round turned, all after. */
  lemma StageKeepsWhole(nodes: seq<Node>, batches: seq<Held>, t: State, i: nat, outcome: Outcome)
    requires |t.held| == |nodes| == |batches| && i < |nodes| && HoldUpTo(batches, t.held, i + 1)
    requires outcome.SendForward? ==> i + 1 < |nodes| && ReadForward(outcome.message) == Some(batches[i + 1])
    requires !outcome.SendForward? ==> t.held == batches || outcome == Failed(Unreachable)
    requires outcome.SendForward? || outcome.Finalized? || outcome.Failed? || (outcome.SendBackward? && i > 0)
    requires t.stage == StageAfter(outcome, i)
    ensures Whole(nodes, batches, t)
  {
    hide ReadForward;
  }

  lemma ApartPeels(peel: Peeler, held: Held)
    requires PeelsApart(peel, held)
    ensures AllPeel(peel, held)
  {
  }

  lemma NotAtHead(nodes: seq<Node>, held: seq<Held>, i: nat, message: Message)
    requires Topology(nodes) && |held| == |nodes| && ForwardingInv(nodes, held, i, message)
    ensures i > 0
  {
  }

  lemma BackwardNext(nodes: seq<Node>, held: seq<Held>, i: nat, message: Message)
    requires Topology(nodes) && |held| == |nodes| && BackwardingInv(nodes, held, i, message)
    ensures i + 1 < |nodes|
  {
  }

  lemma BackwardSendsBack(node: Node, all: Held, message: Message, held: Held, outcome: Outcome)
    requires node.Placed() && BackwardStep(node, all, message, held, outcome)
    ensures !outcome.SendForward?
  {
    hide Leaves, FeeTotal, ReadBackward, CommitCheck, StealthCheck, Kept;
  }

  /** A step keeps everything in the batch. */
  lemma WholeStep(nodes: seq<Node>, batches: seq<Held>, s: State, t: State)
    requires Topology(nodes) && Travels(nodes, batches)
    requires Inv(nodes, batches[0], s) && Whole(nodes, batches, s) && RunStep(nodes, s, t)
    ensures Inv(nodes, batches[0], t) && Whole(nodes, batches, t)
  {
    hide Step, TravelsAt, Inv, Whole;
    ServedHoldsBatch(nodes, batches, s, t);
    StepKeeps(nodes, batches[0], s, t);
  }

  /** All batches have the same size. */
  lemma {:induction false} BatchCounts(nodes: seq<Node>, batches: seq<Held>, j: nat)
    requires Travels(nodes, batches) && j < |nodes|
    ensures |batches[j]| == |batches[0]|
  {
    hide AllPass, Linked;
    if j > 0 {
      BatchCounts(nodes, batches, j - 1);
      assert TravelsAt(nodes, batches, j - 1);
      LinkedCount(nodes[j - 1].peel, batches[j - 1], batches[j]);
    }
  }

  /** The first node keeps all of the loaded batch. */
  lemma WholeStart(nodes: seq<Node>, batches: seq<Held>, s: State)
    requires Topology(nodes) && Travels(nodes, batches) && Start(nodes, batches[0], s)
    ensures Inv(nodes, batches[0], s) && Whole(nodes, batches, s)
  {
    hide ReadForward, ForwardOutcome, Inv, AllPass, PeelsApart, Linked, OutcomeInv;
    var outcome :| ForwardOutcome(nodes[0], batches[0], s.held[0], outcome) && s.stage == StageAfter(outcome, 0);
    assert TravelsAt(nodes, batches, 0);
    ForwardKeepsAll(nodes[0], batches[0], s.held[0], outcome);
    StartKeeps(nodes, batches[0], s);
    StartKeepsWhole(nodes, batches, s, outcome);
  }

  lemma StartKeepsWhole(nodes: seq<Node>, batches: seq<Held>, s: State, outcome: Outcome)
    requires Topology(nodes) && |nodes| == |batches| && Inv(nodes, batches[0], s) && s.held[0] == batches[0]
    requires s.stage == StageAfter(outcome, 0)
    requires outcome.SendForward? ==> |nodes| > 1 && ReadForward(outcome.message) == Some(batches[1])
    requires !outcome.SendForward? ==> |nodes| == 1 || outcome == Failed(Unreachable)
    ensures Whole(nodes, batches, s)
  {
    hide ReadForward, ForwardingInv, BackwardingInv, DoneInv, AbortedInv, Part;
  }

  /** In every state of every run nothing was dropped. */
  lemma {:induction false} RunKeepsWhole(nodes: seq<Node>, batches: seq<Held>, run: seq<State>, k: nat)
    requires Topology(nodes) && Travels(nodes, batches) && Run(nodes, batches[0], run) && k < |run|
    ensures Inv(nodes, batches[0], run[k]) && Whole(nodes, batches, run[k])
  {
    hide TravelsAt, Inv, Whole, Start, Step;
    if k == 0 {
      WholeStart(nodes, batches, run[0]);
    } else {
      RunKeepsWhole(nodes, batches, run, k - 1);
      assert RunStep(nodes, run[k - 1], run[k - 1 + 1]);
      WholeStep(nodes, batches, run[k - 1], run[k]);
    }
  }

  /** A run that finished with every batch whole: everybody was paid. */
  lemma DonePays(nodes: seq<Node>, batches: seq<Held>, run: seq<State>)
    requires Topology(nodes) && Travels(nodes, batches) && Run(nodes, batches[0], run)
    requires run[|run| - 1].stage.Done? && run[|run| - 1].held == batches
    ensures PaysEverywhere(nodes, batches)
  {
    hide TravelsAt, Start, Step, FeeTotal, Settles, Lost, Balanced, StealthBalanced, Spends, Owned, Visits, Outputs,
      PeeledAt, LinkedAt, Part;
    var n, tx := |nodes|, run[|run| - 1].stage.tx;
    RunKeeps(nodes, batches[0], run, |run| - 1);
    RunLedger(nodes, batches[0], run, |run| - 1);
    var fee := nodes[0].share(|batches[0]| + n);
    var order, dest, values, keys :| EnteredAs(nodes, batches, 0, fee, tx.outputs, order, dest, values, keys);
    forall j: nat | j < n ensures PaysAt(nodes, batches, j) {
      assert EarnedAt(nodes, batches, 0 + j, fee + values[j]);
      if j > 0 {
        assert SettledAt(nodes, batches, j);
      }
    }
  }

  /** A run that aborted with every batch whole: somebody was not paid. */
  lemma AbortedUnpaid(nodes: seq<Node>, batches: seq<Held>, run: seq<State>)
    requires Topology(nodes) && Travels(nodes, batches) && Run(nodes, batches[0], run)
    requires run[|run| - 1].stage.Aborted? && !Unreached(run[|run| - 1].stage) && run[|run| - 1].held == batches
    ensures !PaysEverywhere(nodes, batches)
  {
    hide TravelsAt, Run, FeeTotal, Settles, Lost;
    RunNonempty(nodes, batches[0], run);
    RoundCompletes(nodes, batches[0], run);
    var i := run[|run| - 1].stage.at;
    BatchCounts(nodes, batches, i);
    assert !PaysAt(nodes, batches, i) || !PaysAt(nodes, batches, i + 1);
  }

  /**
   * A batch that passes everywhere without collisions, for any number of nodes: nothing of it is ever
   * dropped. Every run that did not miss a peer is the beginning of one that ends; that finishes if and
   * only if the batch pays everywhere; the transaction then spends all of the loaded onions and is
   * balanced in value if and only if node 0's sum lost nothing, or a multiple of H that is the identity.
   */
  lemma CleanBatchIsSpent(nodes: seq<Node>, batches: seq<Held>, run: seq<State>) returns (whole: seq<State>)
    requires Topology(nodes) && Travels(nodes, batches) && KeyedByInput(batches[0])
    requires Run(nodes, batches[0], run) && !Unreached(run[|run| - 1].stage)
    ensures Run(nodes, batches[0], whole) && run <= whole && whole[|whole| - 1].held == batches
    ensures var stage := whole[|whole| - 1].stage;
            if PaysEverywhere(nodes, batches)
            then stage.Done? && Spends(batches[0], stage.tx.inputs)
                 && (TxBalanced(stage.tx) <==> Settles(Lost(nodes[0].peel, batches[0])))
            else stage.Aborted?
  {
    hide TravelsAt, PaysEverywhere, KeyedByInput, Run, Spends, Inv, TxBalanced, Settles, Lost;
    whole := RunEnds(nodes, batches[0], run);
    RunNonempty(nodes, batches[0], whole);
    RunKeepsWhole(nodes, batches, whole, |whole| - 1);
    if whole[|whole| - 1].stage.Done? {
      DonePays(nodes, batches, whole);
      WholeSpends(nodes, batches, whole[|whole| - 1]);
    } else {
      AbortedUnpaid(nodes, batches, whole);
    }
  }

  lemma WholeSpends(nodes: seq<Node>, batches: seq<Held>, s: State)
    requires Topology(nodes) && |nodes| == |batches| && s.held == batches && KeyedByInput(batches[0])
    requires Inv(nodes, batches[0], s) && s.stage.Done?
    ensures Spends(batches[0], s.stage.tx.inputs) && TxStealthBalanced(s.stage.tx)
    ensures TxBalanced(s.stage.tx) <==> Settles(Lost(nodes[0].peel, batches[0]))
  {
    hide AgreedFrom, Spends, KeyedByInput, Balanced, StealthBalanced, TxBalanced, TxStealthBalanced, Settles, Lost;
    SpendsBalance(batches[0], s.stage.tx);
  }

  /* The fees of a batch */

  const Nothing: Valuation := (o: MwebOutput) => 0

  lemma TravelsLinked(nodes: seq<Node>, batches: seq<Held>, j: nat)
    requires Travels(nodes, batches) && j < |nodes|
    ensures AllPeel(nodes[j].peel, batches[j])
    ensures j + 1 < |nodes| ==> LinkedAt(nodes, batches, j)
  {
    hide AllPass, Linked, OneToOne;
    assert TravelsAt(nodes, batches, j);
  }

  /** Without destinations the worth of the batch at the last node is its fees there. */
  lemma {:induction false} FeesOnly(nodes: seq<Node>, batches: seq<Held>, j: nat)
    requires j + 1 == |nodes| == |batches| && AllPeel(nodes[j].peel, batches[j])
    ensures WorthTotal(nodes, batches, Nothing, j) == FeeTotal(nodes[j].peel, batches[j])
  {
    hide SumSet;
    FeeVecTotal(nodes[j].peel, batches[j], batches[j].Keys);
    SumSetEqual(batches[j].Keys, WorthVec(nodes, batches, Nothing, j), FeeVec(nodes[j].peel, batches[j]));
  }

  /** What a batch pays one node is part of what it pays in all from any earlier node on. */
  lemma {:induction false} FeesWithin(nodes: seq<Node>, batches: seq<Held>, k: nat, j: nat)
    requires Travels(nodes, batches) && k <= j < |nodes|
    ensures FeeTotal(nodes[j].peel, batches[j]) <= WorthTotal(nodes, batches, Nothing, k)
    decreases |nodes| - k
  {
    hide TravelsAt, WorthTotal, FeeTotal;
    TravelsLinked(nodes, batches, k);
    FeeTotalNat(nodes[k].peel, batches[k]);
    if k + 1 == |nodes| {
      FeesOnly(nodes, batches, k);
    } else {
      WorthStep(nodes, batches, Nothing, k);
      FeesWithin(nodes, batches, k + 1, if j == k then j + 1 else j);
      TravelsLinked(nodes, batches, k + 1);
      FeeTotalNat(nodes[k + 1].peel, batches[k + 1]);
      if j > k + 1 {
        FeeTotalNat(nodes[j].peel, batches[j]);
      }
    }
  }

  lemma {:induction false} SumBelow(s: set<Point>, f: Point -> Vec, g: Point -> Vec)
    requires forall c :: c in s ==> f(c).v <= g(c).v
    ensures SumSet(s, f).v <= SumSet(s, g).v
  {
    if s != {} {
      var c :| c in s;
      SumSetRemove(s, c, f);
      SumSetRemove(s, c, g);
      SumBelow(s - {c}, f, g);
    }
  }

  /** A fee floor at every hop and a bound on all fees together pay every node without overflow. */
  lemma FloorPays(nodes: seq<Node>, batches: seq<Held>, floor: nat)
    requires Topology(nodes) && SourceShares(nodes) && Travels(nodes, batches) && |batches[0]| > 0
    requires floor >= FeeShare(1 + |nodes|, |nodes|)
    requires forall j: nat :: j < |nodes| ==> AllPay(nodes[j].peel, batches[j], floor)
    requires WorthTotal(nodes, batches, Nothing, 0) < U64
    ensures PaysEverywhere(nodes, batches)
  {
    hide TravelsAt, WorthTotal, FeeTotal, AllPay, FeeShare, Settles, Lost;
    var m, n := |batches[0]|, |nodes|;
    forall j: nat | j < n ensures PaysAt(nodes, batches, j) {
      BatchCounts(nodes, batches, j);
      AllPayTotal(nodes[j].peel, batches[j], floor);
      FloorScales(floor, m, n);
      FeesWithin(nodes, batches, 0, j);
      FitsLosesNothing(nodes[j].peel, batches[j]);
    }
  }
}
