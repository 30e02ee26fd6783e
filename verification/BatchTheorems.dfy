/** From the queue to the transaction: what one run of `performSwap` and its round spend. */
module BatchTheorems {
  import opened Wrappers
  import opened Bytes
  import opened Curve
  import opened Mweb
  import opened OnionCodec
  import opened SwapSpec
  import opened SwapMachine
  import opened Denomination
  import opened Queue
  import opened Sums
  import opened Round
  import opened RoundTheorems

  /** The amount recorded with an onion, if any. */
  function Recorded(amounts: map<seq<byte>, nat>, o: OnionEtc): Option<nat> {
    var key := o.onion.input.commitment;
    if key in amounts then Some(amounts[key]) else None
  }

  /** The held onions all have the same recorded amount, or none has one. */
  ghost predicate SameRecorded(amounts: map<seq<byte>, nat>, held: Held) {
    forall c, d :: c in held && d in held ==> Recorded(amounts, held[c]) == Recorded(amounts, held[d])
  }

  /** The gate that passed over the queue holds of the onions loaded from it. */
  lemma LoadedSameRecorded(
    valid: map<seq<byte>, Onion>, amounts: map<seq<byte>, nat>, order: seq<seq<byte>>, loaded: Held)
    requires Loaded(valid, order, loaded) && OneDenomination(Amounts(amounts, order))
    ensures SameRecorded(amounts, loaded)
  {
    hide Loaded, OneDenomination, Amounts, Recorded;
    forall c, d | c in loaded && d in loaded ensures Recorded(amounts, loaded[c]) == Recorded(amounts, loaded[d]) {
      var i := LoadedListed(valid, amounts, order, loaded, c);
      var j := LoadedListed(valid, amounts, order, loaded, d);
      Alike(Amounts(amounts, order), i, j);
    }
  }

  lemma Alike(amts: seq<Option<nat>>, i: nat, j: nat)
    requires OneDenomination(amts) && i < |amts| && j < |amts|
    ensures amts[i] == amts[j]
  {
  }

  lemma LoadedListed(
    valid: map<seq<byte>, Onion>, amounts: map<seq<byte>, nat>, order: seq<seq<byte>>, loaded: Held, c: Point)
    returns (i: nat)
    requires Loaded(valid, order, loaded) && c in loaded
    ensures i < |Amounts(amounts, order)| && Amounts(amounts, order)[i] == Recorded(amounts, loaded[c])
  {
    hide InputFromOnion;
    i :| 0 <= i < |order| && order[i] == loaded[c].onion.input.commitment;
  }

  /** Two valid onions in the queue whose recorded amounts differ, or of which one has none. */
  ghost predicate Mixed(coins: map<seq<byte>, MwebOutput>, b: Buckets) {
    exists k, l :: MixedAt(coins, b, k, l)
  }

  ghost predicate MixedAt(coins: map<seq<byte>, MwebOutput>, b: Buckets, k: seq<byte>, l: seq<byte>) {
    && k in b.onions && ValidOnion(coins, b.onions[k])
    && l in b.onions && ValidOnion(coins, b.onions[l])
    && AmountOf(b, k) != AmountOf(b, l)
  }

  function AmountOf(b: Buckets, k: seq<byte>): Option<nat> {
    if k in b.amounts then Some(b.amounts[k]) else None
  }

  /**
   * The daily swap refuses a batch for mixed denominations if and only if two valid onions of the queue
   * differ in their recorded amounts.
   */
  lemma MixedIsRefusedExactly(
    node: Node, coins: map<seq<byte>, MwebOutput>, b: Buckets, order: seq<seq<byte>>, loaded: Held, held: Held,
    outcome: Outcome)
    requires node.index == 0 && (node.count > 0 ==> node.Placed())
    requires SwapOutcome(node, ValidOnes(coins, b.onions), b.onions == map[], b.amounts, order, loaded, held, outcome)
    ensures outcome == Failed(MixedDenominations) <==> Mixed(coins, b)
  {
    hide ValidOnion, ForwardOutcome, OneDenomination, Loaded, Amounts, Visits;
    var valid := ValidOnes(coins, b.onions);
    VisitsElements(order, valid.Keys);
    if Mixed(coins, b) {
      var k, l :| MixedAt(coins, b, k, l);
      assert k in valid.Keys && l in valid.Keys;
      assert k in order && l in order;
      var i :| 0 <= i < |order| && order[i] == k;
      var j :| 0 <= j < |order| && order[j] == l;
      AmountsAt(b, order, i);
      AmountsAt(b, order, j);
      ListedIn(valid, order, loaded, k);
      Differ(Amounts(b.amounts, order), i, j);
    }
    if outcome == Failed(MixedDenominations) {
      if OneDenomination(Amounts(b.amounts, order)) && node.count > 0 {
        NoGateInvolved(node, loaded, held, outcome);
      }
      var i, j := TwoDiffer(Amounts(b.amounts, order));
      AmountsSize(b, order);
      AmountsAt(b, order, i);
      AmountsAt(b, order, j);
      assert order[i] in valid && order[j] in valid;
      assert MixedAt(coins, b, order[i], order[j]);
    }
  }

  /** Otherwise the daily swap peels what it loaded and sends it on, or turns round where node 0 is alone. */
  lemma OtherwiseForwards(
    node: Node, coins: map<seq<byte>, MwebOutput>, b: Buckets, order: seq<seq<byte>>, loaded: Held, held: Held,
    outcome: Outcome)
    requires node.index == 0 && node.count > 0
    requires SwapOutcome(node, ValidOnes(coins, b.onions), b.onions == map[], b.amounts, order, loaded, held, outcome)
    requires !Mixed(coins, b) && (b.onions == map[] || loaded != map[])
    ensures ForwardOutcome(node, loaded, held, outcome)
  {
    hide ForwardOutcome, ValidOnes, Loaded, Amounts, Mixed, OneDenomination;
    MixedIsRefusedExactly(node, coins, b, order, loaded, held, outcome);
  }

  lemma AmountsSize(b: Buckets, order: seq<seq<byte>>)
    ensures |Amounts(b.amounts, order)| == |order|
  {
  }

  lemma AmountsAt(b: Buckets, order: seq<seq<byte>>, i: nat)
    requires i < |order|
    ensures |Amounts(b.amounts, order)| == |order| && Amounts(b.amounts, order)[i] == AmountOf(b, order[i])
  {
  }

  lemma Differ(amts: seq<Option<nat>>, i: nat, j: nat)
    requires i < |amts| && j < |amts| && amts[i] != amts[j]
    ensures !OneDenomination(amts)
  {
  }

  lemma TwoDiffer(amts: seq<Option<nat>>) returns (i: nat, j: nat)
    requires !OneDenomination(amts)
    ensures i < |amts| && j < |amts| && amts[i] != amts[j]
  {
    i, j :| i < |amts| && j < |amts| && amts[i] != amts[j];
  }

  lemma NoGateInvolved(node: Node, all: Held, held: Held, outcome: Outcome)
    requires node.Placed() && ForwardOutcome(node, all, held, outcome)
    ensures outcome != Failed(MixedDenominations)
  {
    hide PeelOutcome, Leaves;
  }

  /** The onion is stored under its own key and valid. */
  ghost predicate FromQueue(coins: map<seq<byte>, MwebOutput>, b: Buckets, o: Onion) {
    ValidOnion(coins, o) && o.input.commitment in b.onions && b.onions[o.input.commitment] == o
  }

  /** An onion is loaded under the commitment that this onion's input spends. */
  ghost predicate InBatch(loaded: Held, o: Onion) {
    InputFromOnion(o).Some? && InputFromOnion(o).value.commitment in loaded
  }

  /**
   * What the daily swap loads is valid, every valid onion of the queue and nothing else; from a queue
   * that holds onions but no valid one it loads nothing and fails.
   */
  lemma LoadsTheValid(
    node: Node, coins: map<seq<byte>, MwebOutput>, b: Buckets, order: seq<seq<byte>>, loaded: Held, held: Held,
    outcome: Outcome)
    requires node.index == 0
    requires SwapOutcome(node, ValidOnes(coins, b.onions), b.onions == map[], b.amounts, order, loaded, held, outcome)
    ensures forall c :: c in loaded ==> FromQueue(coins, b, loaded[c].onion)
    ensures forall k :: k in b.onions && ValidOnion(coins, b.onions[k]) ==> InBatch(loaded, b.onions[k])
    ensures b.onions != map[] && (forall k :: k in b.onions ==> !ValidOnion(coins, b.onions[k])) ==>
      outcome == Failed(NoValidOnion)
  {
    hide ValidOnion, ValidOnes, SwapOutcome, Visits, Loaded, FromQueue, InBatch;
    var valid := ValidOnes(coins, b.onions);
    OutcomeLoads(node, valid, b.onions == map[], b.amounts, order, loaded, held, outcome);
    ValidOnesAre(coins, b.onions);
    VisitsElements(order, valid.Keys);
    forall c | c in loaded ensures FromQueue(coins, b, loaded[c].onion) && valid != map[] {
      LoadedFrom(coins, b, order, loaded, c);
    }
    forall k | k in b.onions && ValidOnion(coins, b.onions[k]) ensures InBatch(loaded, b.onions[k]) {
      assert k in valid.Keys;
      ListedIn(valid, order, loaded, k);
    }
  }

  lemma OutcomeLoads(
    node: Node, valid: map<seq<byte>, Onion>, empty: bool, amounts: map<seq<byte>, nat>, order: seq<seq<byte>>,
    loaded: Held, held: Held, outcome: Outcome)
    requires node.index == 0 && SwapOutcome(node, valid, empty, amounts, order, loaded, held, outcome)
    ensures Visits(order, valid.Keys) && Loaded(valid, order, loaded)
    ensures !empty && loaded == map[] ==> outcome == Failed(NoValidOnion)
  {
    hide ForwardOutcome, OneDenomination, Amounts, Visits, Loaded;
  }

  lemma ValidOnesAre(coins: map<seq<byte>, MwebOutput>, stored: map<seq<byte>, Onion>)
    ensures forall k :: k in ValidOnes(coins, stored) <==> k in stored && ValidOnion(coins, stored[k])
    ensures forall k :: k in ValidOnes(coins, stored) ==> ValidOnes(coins, stored)[k] == stored[k]
  {
    hide ValidOnion;
  }

  lemma LoadedFrom(
    coins: map<seq<byte>, MwebOutput>, b: Buckets, order: seq<seq<byte>>, loaded: Held, c: Point)
    requires Loaded(ValidOnes(coins, b.onions), order, loaded) && Visits(order, ValidOnes(coins, b.onions).Keys)
    requires c in loaded
    ensures FromQueue(coins, b, loaded[c].onion) && ValidOnes(coins, b.onions) != map[]
  {
    hide ValidOnes, ValidOnion, InputFromOnion, KeyedByInput, Visits;
    ValidOnesAre(coins, b.onions);
    assert loaded[c].onion.input.commitment in ValidOnes(coins, b.onions);
  }

  lemma ListedIn(valid: map<seq<byte>, Onion>, order: seq<seq<byte>>, loaded: Held, k: seq<byte>)
    requires Loaded(valid, order, loaded) && k in order
    ensures k in valid && InBatch(loaded, valid[k])
  {
    hide InputFromOnion, KeyedByInput;
  }

  /**
   * Two route submissions of different coins for different amounts, both queued: whatever else is queued
   * in between and after, as long as both entries stay and are valid, the daily swap refuses the batch.
   */
  lemma MixedSubmissionsRefused(
    node: Node, coins: map<seq<byte>, MwebOutput>, b0: Buckets, o1: Onion, amount1: uint64, b1: Buckets,
    b2: Buckets, o2: Onion, amount2: uint64, b3: Buckets, b: Buckets,
    order: seq<seq<byte>>, loaded: Held, held: Held, outcome: Outcome)
    requires o1.input.commitment != o2.input.commitment && amount1 != amount2 && amount1 > 0 && amount2 > 0
    requires Admitted(b0, o1, amount1, Queued, b1) && Admitted(b2, o2, amount2, Queued, b3)
    requires Keeps(b1, b2, o1.input.commitment)
    requires Keeps(b3, b, o1.input.commitment) && Keeps(b3, b, o2.input.commitment)
    requires ValidOnion(coins, o1) && ValidOnion(coins, o2)
    requires node.index == 0 && (node.count > 0 ==> node.Placed())
    requires SwapOutcome(node, ValidOnes(coins, b.onions), b.onions == map[], b.amounts, order, loaded, held, outcome)
    ensures outcome == Failed(MixedDenominations)
  {
    hide ValidOnion, SwapOutcome;
    MixedIsRefusedExactly(node, coins, b, order, loaded, held, outcome);
    assert AmountOf(b, o1.input.commitment) == Some(amount1) && AmountOf(b, o2.input.commitment) == Some(amount2);
    assert MixedAt(coins, b, o1.input.commitment, o2.input.commitment);
  }

  /** What is queued under this key, the onion and its amount, stays as it is. */
  predicate Keeps(b: Buckets, b': Buckets, k: seq<byte>) {
    && (k in b.onions ==> k in b'.onions && b'.onions[k] == b.onions[k])
    && (k in b.amounts ==> k in b'.amounts && b'.amounts[k] == b.amounts[k])
  }

  /**
   * One denomination per transaction: if the gate passed at node 0, then whatever the round drops at
   * whatever node, the onions whose inputs the finished transaction spends all had the same recorded
   * amount, or none had one.
   */
  lemma DenominationCarries(
    nodes: seq<Node>, valid: map<seq<byte>, Onion>, amounts: map<seq<byte>, nat>, order: seq<seq<byte>>, loaded: Held,
    run: seq<State>, tx: MwebTx)
    requires Topology(nodes) && Loaded(valid, order, loaded) && OneDenomination(Amounts(amounts, order))
    requires Run(nodes, loaded, run) && run[|run| - 1].stage == Done(tx)
    ensures var held := run[|run| - 1].held;
            |held| == |nodes| && Spends(held[0], tx.inputs) && SameRecorded(amounts, held[0])
  {
    hide Balanced, StealthBalanced, Collected, AgreedFrom, Spends, Recorded, Loaded, Step, Start;
    RunNonempty(nodes, loaded, run);
    RunKeeps(nodes, loaded, run, |run| - 1);
    LoadedSameRecorded(valid, amounts, order, loaded);
  }
}
