/**
 * What becomes of a sum of hop fees that does not fit 64 bits at node 0, where no other node checks the
 * result: it can reach the finished transaction.
 */
module Overflow {
  import opened Wrappers
  import opened Bytes
  import opened Curve
  import opened Sums
  import opened Mweb
  import opened OnionCodec
  import opened Builder
  import opened SwapSpec
  import opened Balance
  import opened Round
  import opened RoundTheorems
  import opened Progress
  import opened EndToEnd

  /** An output under given points. */
  function Anonymous(commitment: Point, senderPubKey: Point): MwebOutput {
    MwebOutput(commitment, senderPubKey, 0, [], None, [])
  }

  /** One output that makes up for the onions' next commitments and the kernels passes both checks. */
  lemma ChecksCanPass(peel: Peeler, held: Held, kernels: seq<MwebKernel>) returns (output: MwebOutput)
    ensures CommitCheck(peel, held, [output], kernels) && StealthCheck(peel, held, [output], kernels)
  {
    hide SumSet, NextVec, NextStealthVec;
    var next, stealth := SumSet(held.Keys, NextVec(peel, held)), SumSet(held.Keys, NextStealthVec(peel, held));
    var excess, stealthExcess := SumSeq(kernels, KernelVec), SumSeq(kernels, StealthExcessVec);
    output := Anonymous(P(excess.Plus(next)), P(stealthExcess.Plus(stealth)));
    Difference(output, OutputVec, excess, next);
    Difference(output, SenderVec, stealthExcess, stealth);
  }

  lemma Difference(output: MwebOutput, f: MwebOutput -> Vec, x: Vec, y: Vec)
    requires f(output) == Open(P(x.Plus(y)))
    ensures Same(SumSeq([output], f).Minus(y), x)
  {
    OpenSame(x.Plus(y));
    SameMinus(Open(P(x.Plus(y))), x.Plus(y), y, y);
    assert x.Plus(y).Minus(y) == x;
    assert SumSeq([output], f) == Open(P(x.Plus(y)));
  }

  /** Onions whose next commitments are all listed are all kept. */
  lemma AllKept(peel: Peeler, all: Held, commits: seq<Point>)
    requires AllPeel(peel, all) && Visits(commits, NextKeys(peel, all))
    ensures Kept(peel, all, commits) == all
  {
    hide Next;
    VisitsElements(commits, NextKeys(peel, all));
  }

  /**
   * Whatever batch node 0 loaded and whatever it kept of it, some message of its peer takes it to a
   * finished transaction if only its fees, summed in 64 bits, cover its share; that transaction is
   * balanced in value if and only if what was lost of the fees is a multiple of H that is the identity.
   */
  lemma OverflowGetsThrough(node: Node, loaded: Held, held: Held, first: Outcome)
    returns (message: Message, outcome: Outcome)
    requires node.index == 0 && node.count >= 2 && KeyedByInput(loaded)
    requires ForwardOutcome(node, loaded, held, first)
    requires FeeTotal(node.peel, held) % U64 >= node.share(2)
    ensures BackwardStep(node, held, message, held, outcome) && outcome.Finalized?
    ensures TxBalanced(outcome.tx) <==> Settles(Lost(node.peel, held))
  {
    hide KeyedByInput, AllPeel, OneToOne, FeeTotal, CommitCheck, StealthCheck, TxBalanced, TxStealthBalanced,
      ForwardOutcome, BackwardOutcome, Settles, Lost, ReadBackward, NextKeys, Kept;
    ForwardKeepsPart(node, loaded, held, first);
    PartKeyed(held, loaded);
    var kernels := seq(node.count - 1, _ => MwebKernel(0, 0, 0));
    var output := ChecksCanPass(node.peel, held, kernels);
    var commits := OrderExists(NextKeys(node.peel, held));
    message := BackwardMessage(commits, [output], kernels);
    ReadBackwardBack(node, commits, [output], kernels);
    AllKept(node.peel, held, commits);
    outcome := BackwardExists(node, held, [output], kernels);
    Finishes(node, held, [output], kernels, outcome);
    AcceptedIsBalanced(node, held, message, held, outcome);
  }

  lemma Finishes(node: Node, held: Held, outputs: seq<MwebOutput>, kernels: seq<MwebKernel>, outcome: Outcome)
    requires node.index == 0 && node.Placed() && BackwardOutcome(node, held, outputs, kernels, outcome)
    requires FeeTotal(node.peel, held) % U64 >= node.share(|outputs| + 1)
    ensures outcome.Finalized?
  {
    hide FeeTotal, Leaves, Spends;
  }

  /* Multiples of H */

  lemma SettlesMinus(a: int, b: int)
    requires Settles(a) && Settles(b)
    ensures Settles(a - b)
  {
    SameMinus(Vec(0, a), Zero, Vec(0, b), Zero);
    assert Vec(0, a).Minus(Vec(0, b)) == Vec(0, a - b) && Zero.Minus(Zero) == Zero;
  }

  lemma {:induction false} SettlesTimes(a: int, k: nat)
    requires Settles(a)
    ensures Settles(a * k)
  {
    hide Settles;
    SettlesMinus(a, a);
    if k > 0 {
      SettlesTimes(a, k - 1);
      SettlesMinus(0, a);
      SettlesMinus(a * (k - 1), 0 - a);
      assert a * k == a * (k - 1) + a;
    }
  }

  lemma NegateSettles(a: int)
    ensures Settles(0 - a) <==> Settles(a)
  {
    SameNegate(a);
  }

  /** In a group in which 2^64 H is not the identity two gaps that differ by d can both be avoided. */
  lemma GapExists(d: int) returns (k: int)
    requires !Settles(U64)
    ensures !Settles(k) && !Settles(k + d)
  {
    hide Settles;
    if Settles(1) {
      SettlesTimes(1, U64);
    }
    NegateSettles(U64);
    k := U64;
    if Settles(U64 + d) {
      k := 1;
      if Settles(1 + d) {
        k := 0 - U64;
        if Settles(0 - U64 + d) {
          SettlesMinus(U64 + d, 1 + d);
          SettlesMinus(1 + d, 0 - U64 + d);
          SettlesMinus(U64 + 1, U64 - 1);
          SettlesTimes(2, U64 / 2);
        }
      }
    }
  }

  /* The input */

  /** What a taker needs to wrap onions for a route that begins at the node with this key. */
  ghost predicate CanWrap(priv: PrivKey, pubKeys: seq<seq<byte>>, ephemeral: seq<PrivKey>, rest: seq<Hop>) {
    && |ephemeral| > |pubKeys| == |rest| + 1 >= 2
    && pubKeys[0] == x25519.publicKey(priv)
    && CipherKeys(ephemeral, pubKeys).Some?
    && |rest| + 1 < U64 && FitsWord(rest)
  }

  /** A first hop that only charges. */
  function ChargingHop(fee: uint64): Hop {
    WidthPositive(32);
    Hop(0, 0, fee, None)
  }

  /** An onion as `New` makes it, whose first hop charges `fee`, with an input attached. */
  function ChargingOnion(
    pubKeys: seq<seq<byte>>, ephemeral: seq<PrivKey>, rest: seq<Hop>, fee: uint64, input: MwebInput): Onion
    requires |ephemeral| > |pubKeys| == |rest| + 1 && CipherKeys(ephemeral, pubKeys).Some?
  {
    WidthPositive(32);
    Signed(Wrapped(ephemeral, CipherKeys(ephemeral, pubKeys).value, [ChargingHop(fee)] + rest), input, 0)
  }

  /** The two onions under the commitments that they spend. */
  function TwoOnions(
    pubKeys: seq<seq<byte>>, ephemeral: seq<PrivKey>, rest: seq<Hop>, c: Point, d: Point, x: uint64, y: uint64): Held
    requires |ephemeral| > |pubKeys| == |rest| + 1 && CipherKeys(ephemeral, pubKeys).Some?
  {
    map[c := OnionEtc(ChargingOnion(pubKeys, ephemeral, rest, x, Spending(0, c)), Base()),
        d := OnionEtc(ChargingOnion(pubKeys, ephemeral, rest, y, Spending(1, d)), Base())]
  }

  /** An input that spends a coin with this commitment. */
  function Spending(id: byte, c: Point): MwebInput {
    MwebInput([id] + Zeros(31), c, 0, 0, Zeros(64))
  }

  /** A chain that knows both coins. */
  function Coins(c: Point, d: Point): map<seq<byte>, MwebOutput> {
    map[Spending(0, c).outputId := Anonymous(c, 0), Spending(1, d).outputId := Anonymous(d, 0)]
  }

  /** The onion is admitted if and only if its two signatures verify. */
  ghost predicate NeedsSignatures(coins: map<seq<byte>, MwebOutput>, onion: Onion) {
    && InputFromOnion(onion).Some?
    && (ValidOnion(coins, onion) <==> InputSigVerifies(InputFromOnion(onion).value) && OwnerSigVerifies(onion))
  }

  function Base(): Point { Sub(0, 0) }

  /** The onion peels at its first node to its first hop. */
  lemma ChargingPeels(
    priv: PrivKey, pubKeys: seq<seq<byte>>, ephemeral: seq<PrivKey>, rest: seq<Hop>, fee: uint64, input: MwebInput)
    requires CanWrap(priv, pubKeys, ephemeral, rest)
    ensures var r := Peeling(priv, ChargingOnion(pubKeys, ephemeral, rest, fee, input));
            r.Ok? && r.value.hop == ChargingHop(fee)
  {
    hide Peeling, CipherKeys, Wrapped;
    var hops := [ChargingHop(fee)] + rest;
    var keys := CipherKeys(ephemeral, pubKeys).value;
    assert forall h :: h in hops ==> h == ChargingHop(fee) || h in rest;
    var privs := seq(|pubKeys|, _ => priv);
    PeelLayer(privs, ephemeral, pubKeys, hops, 0);
    assert ephemeral[0..] == ephemeral && keys[0..] == keys && hops[0..] == hops;
    PeelingIgnoresInput(priv, ChargingOnion(pubKeys, ephemeral, rest, fee, input), Wrapped(ephemeral, keys, hops));
  }

  /** What is known of two onions of which one charges x and the other y. */
  ghost predicate TwoCharge(peel: Peeler, held: Held, c: Point, d: Point, x: uint64, y: uint64) {
    && held.Keys == {c, d}
    && Peels(peel, held[c]) && HopOf(peel, held[c]) == ChargingHop(x)
    && Peels(peel, held[d]) && HopOf(peel, held[d]) == ChargingHop(y)
  }

  lemma TwoFees(peel: Peeler, held: Held, c: Point, d: Point, x: uint64, y: uint64)
    requires c != d && TwoCharge(peel, held, c, d, x, y)
    ensures FeeTotal(peel, held) == x + y
  {
    hide SumSet;
    var f := HopVec(peel, held);
    var none: set<Point> := {};
    SumSetInsert(none, d, f);
    SumSetInsert(none + {d}, c, f);
    SumEmpty(f);
    assert held.Keys == none + {d} + {c};
    assert f(c).v == 0 - x && f(d).v == 0 - y;
  }

  lemma SumEmpty(f: Point -> Vec)
    ensures var none: set<Point> := {};
            SumSet(none, f) == Zero
  {
  }

  /** Both pass at a first node that is not the last, and apart. */
  lemma TwoPass(node: Node, held: Held, k: int, c: Point, d: Point, x: uint64, y: uint64)
    requires node.index == 0 && node.count >= 2 && TwoCharge(node.peel, held, c, d, x, y)
    requires c == P(Vec(0, x + k)) && d == P(Vec(0, y)) && !Settles(k)
    ensures AllPass(node, held) && PeelsApart(node.peel, held)
  {
    hide P;
    var gone, kept := held[c], held[d];
    StepAlong(node.peel, Vec(0, x + k), OnionEtc(gone.onion, P(Open(gone.stealthSum))), Open(gone.stealthSum),
      ChargingHop(x), node.peel(gone.onion).value.onion);
    StepAlong(node.peel, Vec(0, y), OnionEtc(kept.onion, P(Open(kept.stealthSum))), Open(kept.stealthSum),
      ChargingHop(y), node.peel(kept.onion).value.onion);
    OpenNames(gone.stealthSum);
    OpenNames(kept.stealthSum);
    assert Next(node.peel, c, gone) == P(Vec(0, k)) && Next(node.peel, d, kept) == P(Zero);
  }

  lemma Keyed(input: MwebInput, onion: Onion)
    requires |input.outputId| == 32 && |input.signature| == 64 && input.inputPubKey == input.outputPubKey == 0
    requires exists bare, key: Bytes32 :: onion == Signed(bare, input, key)
    ensures InputFromOnion(onion) == Some(input)
  {
    var bare, key: Bytes32 :| onion == Signed(bare, input, key);
    SignedInput(bare, input, key);
  }

  /**
   * An input for which node 0 sends a transaction that is not balanced in value: two onions as `New`
   * makes them, for any route that begins at node 0, whose first hops charge all that 64 bits hold and
   * one more than the share. Both are admitted if their signatures verify, node 0 keeps both whatever it
   * does, and some message of the next node makes it finish. It fails in every group in which 2^64 H is
   * not the identity.
   */
  lemma UnbalancedIsSent(priv: PrivKey, pubKeys: seq<seq<byte>>, ephemeral: seq<PrivKey>, rest: seq<Hop>)
    returns (node: Node, loaded: Held, c: Point, d: Point, first: Outcome, message: Message, outcome: Outcome)
    requires CanWrap(priv, pubKeys, ephemeral, rest)
    requires FeeShare(2, |pubKeys|) + 1 < U64 && !Settles(U64)
    ensures node.index == 0 && node.count == |pubKeys| && node.share == ShareAmong(|pubKeys|)
    ensures forall o :: node.peel(o) == Peeling(priv, o)
    ensures c != d
    ensures loaded == TwoOnions(pubKeys, ephemeral, rest, c, d, U64 - 1, FeeShare(2, |pubKeys|) + 1)
    ensures forall p :: p in loaded ==> NeedsSignatures(Coins(c, d), loaded[p].onion)
    ensures KeyedByInput(loaded) && FeeTotal(node.peel, loaded) == U64 + FeeShare(2, |pubKeys|)
    ensures forall held, o :: ForwardOutcome(node, loaded, held, o) ==> held == loaded
    ensures ForwardOutcome(node, loaded, loaded, first)
    ensures BackwardStep(node, loaded, message, loaded, outcome) && outcome.Finalized?
    ensures !TxBalanced(outcome.tx)
  {
    hide KeyedByInput, FeeTotal, TxBalanced, BackwardStep, FeeShare, ForwardOutcome, CipherKeys, FitsWord,
      ChargingOnion, Peeling, AllPass, PeelsApart, Settles, NeedsSignatures, Coins;
    var x, y: uint64 := U64 - 1, FeeShare(2, |pubKeys|) + 1;
    node := Node((o: Onion) => Peeling(priv, o), ShareAmong(|pubKeys|), 0, |pubKeys|);
    var k := GapExists(x - y);
    c, d := P(Vec(0, x + k)), P(Vec(0, y));
    Apart(x + k, y);
    ChargingPeels(priv, pubKeys, ephemeral, rest, x, Spending(0, c));
    ChargingPeels(priv, pubKeys, ephemeral, rest, y, Spending(1, d));
    loaded := TwoOnions(pubKeys, ephemeral, rest, c, d, x, y);
    assert TwoCharge(node.peel, loaded, c, d, x, y);
    TwoKeyed(pubKeys, ephemeral, rest, c, d, x, y, loaded);
    TwoPass(node, loaded, k, c, d, x, y);
    TwoFees(node.peel, loaded, c, d, x, y);
    forall held, o | ForwardOutcome(node, loaded, held, o) ensures held == loaded {
      ForwardKeepsAll(node, loaded, held, o);
    }
    var held;
    held, first := ForwardExists(node, loaded);
    WrapsTo(FeeShare(2, |pubKeys|));
    message, outcome := OverflowGetsThrough(node, loaded, held, first);
  }

  lemma TwoKeyed(
    pubKeys: seq<seq<byte>>, ephemeral: seq<PrivKey>, rest: seq<Hop>, c: Point, d: Point, x: uint64, y: uint64,
    loaded: Held)
    requires |ephemeral| > |pubKeys| == |rest| + 1 && CipherKeys(ephemeral, pubKeys).Some? && c != d
    requires loaded == TwoOnions(pubKeys, ephemeral, rest, c, d, x, y)
    ensures KeyedByInput(loaded)
    ensures forall p :: p in loaded ==> NeedsSignatures(Coins(c, d), loaded[p].onion)
  {
    hide InputFromOnion, Signed, CipherKeys, Wrapped;
    WidthPositive(32);
    assert Spending(0, c).outputId[0] != Spending(1, d).outputId[0];
    Keyed(Spending(0, c), loaded[c].onion);
    Keyed(Spending(1, d), loaded[d].onion);
  }

  lemma Apart(a: int, b: int)
    requires !Settles(a - b)
    ensures P(Vec(0, a)) != P(Vec(0, b))
  {
    SameDifference(Vec(0, a), Vec(0, b));
    assert Vec(0, a).Minus(Vec(0, b)) == Vec(0, a - b);
  }

  lemma WrapsTo(x: nat)
    requires x < U64
    ensures (U64 + x) % U64 == x
  {
  }
}
