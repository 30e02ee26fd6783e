/** A batch of onions that the builder made goes round the three nodes of its route and is spent whole. */
module BuiltBatch {
  import opened Wrappers
  import opened Bytes
  import opened Curve
  import opened Sums
  import opened Mweb
  import opened OnionCodec
  import opened MlnRoute
  import opened SwapSpec
  import opened Balance
  import opened Builder
  import opened Round
  import opened RoundTheorems
  import opened Progress
  import opened Ledger
  import opened EndToEnd
  import opened Payments
  import opened Text

  /* The batches that a loaded batch turns into */

  ghost function Origin(peel: Peeler, batch: Held, d: Point): (c: Point)
    requires AllPeel(peel, batch) && d in NextKeys(peel, batch)
    ensures c in batch && Next(peel, c, batch[c]) == d
  {
    var c :| c in batch && Next(peel, c, batch[c]) == d;
    c
  }

  /** The batch one hop further, if all of it peels. */
  ghost function Advance(peel: Peeler, batch: Held): Held {
    if !AllPeel(peel, batch) then map[]
    else map d | d in NextKeys(peel, batch) :: NextOnion(peel, batch[Origin(peel, batch, d)])
  }

  ghost function Batches(nodes: seq<Node>, batch: Held): (batches: seq<Held>)
    ensures |batches| == |nodes|
  {
    if nodes == [] then [] else [batch] + Batches(nodes[1..], Advance(nodes[0].peel, batch))
  }

  /** At no hop do two onions of the batch go to one commitment. */
  ghost predicate NoCollisions(nodes: seq<Node>, batch: Held) {
    || nodes == []
    || !AllPeel(nodes[0].peel, batch)
    || (OneToOne(nodes[0].peel, batch) && NoCollisions(nodes[1..], Advance(nodes[0].peel, batch)))
  }

  ghost predicate AllAlong(nodes: seq<Node>, batch: Held) {
    forall c :: c in batch ==> PassesAlong(nodes, c, batch[c])
  }

  /** The onion pays each of the nodes at least `floor`. */
  predicate PaysAlong(nodes: seq<Node>, c: Point, o: OnionEtc, floor: nat) {
    || nodes == []
    || (&& Peels(nodes[0].peel, o)
        && HopOf(nodes[0].peel, o).fee >= floor
        && PaysAlong(nodes[1..], Next(nodes[0].peel, c, o), NextOnion(nodes[0].peel, o), floor))
  }

  ghost predicate AllPayAlong(nodes: seq<Node>, batch: Held, floor: nat) {
    forall c :: c in batch ==> PaysAlong(nodes, c, batch[c], floor)
  }

  lemma AdvanceLinked(peel: Peeler, batch: Held)
    requires AllPeel(peel, batch) && OneToOne(peel, batch)
    ensures Linked(peel, batch, Advance(peel, batch))
  {
    hide Next, NextOnion;
    forall c | c in batch
      ensures Next(peel, c, batch[c]) in NextKeys(peel, batch) && Origin(peel, batch, Next(peel, c, batch[c])) == c
    {
    }
  }

  lemma {:induction false} AlongAdvances(nodes: seq<Node>, batch: Held)
    requires nodes != [] && AllAlong(nodes, batch)
    ensures AllPass(nodes[0], batch) && AllPeel(nodes[0].peel, batch)
    ensures AllAlong(nodes[1..], Advance(nodes[0].peel, batch))
  {
    hide Next, NextOnion;
  }

  lemma {:induction false} PayAdvances(nodes: seq<Node>, batch: Held, floor: nat)
    requires nodes != [] && AllPayAlong(nodes, batch, floor)
    ensures AllPay(nodes[0].peel, batch, floor)
    ensures AllPayAlong(nodes[1..], Advance(nodes[0].peel, batch), floor)
  {
    hide Next, NextOnion;
  }

  /** Onions that all pass along the nodes without collisions travel as whole batches. */
  lemma {:induction false} BatchesTravel(nodes: seq<Node>, batch: Held)
    requires AllAlong(nodes, batch) && NoCollisions(nodes, batch)
    ensures Travels(nodes, Batches(nodes, batch))
    decreases |nodes|
  {
    hide AllPass, OneToOne, AllAlong, Linked, Advance, AllPeel;
    if nodes != [] {
      var next := Advance(nodes[0].peel, batch);
      var batches := Batches(nodes, batch);
      AlongAdvances(nodes, batch);
      AdvanceLinked(nodes[0].peel, batch);
      BatchesTravel(nodes[1..], next);
      forall j: nat | j < |nodes| ensures TravelsAt(nodes, batches, j) {
        if j == 0 {
          assert |nodes| > 1 ==> batches[1] == next;
        } else {
          assert TravelsAt(nodes[1..], Batches(nodes[1..], next), j - 1);
        }
      }
    }
  }

  lemma {:induction false} BatchesPay(nodes: seq<Node>, batch: Held, floor: nat, j: nat)
    requires AllPayAlong(nodes, batch, floor) && j < |nodes|
    ensures AllPay(nodes[j].peel, Batches(nodes, batch)[j], floor)
    decreases |nodes|
  {
    hide AllPayAlong, AllPay, Advance;
    PayAdvances(nodes, batch, floor);
    if j > 0 {
      BatchesPay(nodes[1..], Advance(nodes[0].peel, batch), floor, j - 1);
    }
  }

  /* Built onions */

  /**
   * The onion was built for this request, whose route is these nodes' and names at least `floor` for each;
   * its fees do not wrap, its output reads back and its proofs verify.
   */
  ghost predicate WellBuilt(
    nodes: seq<Node>, privs: seq<PrivKey>, c: Point, o: OnionEtc, floor: nat,
    req: Request, peerPub: seq<seq<byte>>, coin: Coin, address: StealthAddress, ephemeral: seq<PrivKey>, d: Draw)
  {
    && Built(req, peerPub, coin, address, ephemeral, d, o.onion)
    && DecodeMwebAddress(TrimSpace(req.destination)) == Some(address)
    && c == CoinCommitment(coin)
    && o.stealthSum == Sub(PubKey(coin.spendKey.value), PubKey(d.inputKey))
    && RouteNodes(nodes, privs, peerPub)
    && |req.route| == ExpectedHops && Fees(req.route) < U64
    && (forall i :: 0 <= i < ExpectedHops ==> req.route[i].feeMinSat >= floor)
    && Verifies(LastOutput(req, address, d).0)
  }

  predicate Verifies(output: MwebOutput) {
    && Serializable(output) && |SerializeOutput(output)| + 106 < U64
    && output.rangeProof.Some?
    && RangeProofVerifies(output.rangeProof.value, output.commitment, output.message)
    && OutputSigVerifies(output)
  }

  ghost predicate WellBuiltFor(
    nodes: seq<Node>, privs: seq<PrivKey>, c: Point, o: OnionEtc, floor: nat, req: Request)
  {
    exists peerPub, coin, address, ephemeral, d ::
      WellBuilt(nodes, privs, c, o, floor, req, peerPub, coin, address, ephemeral, d)
  }

  /** The three peels of an onion, by hops and by what is left. */
  ghost predicate PeeledThrice(
    nodes: seq<Node>, o: OnionEtc, hops: seq<Hop>, r1: Onion, r2: Onion, r3: Onion)
  {
    && |nodes| == |hops| == 3
    && nodes[0].peel(o.onion) == Ok(Peeled(hops[0], r1))
    && nodes[1].peel(r1) == Ok(Peeled(hops[1], r2))
    && nodes[2].peel(r2) == Ok(Peeled(hops[2], r3))
  }

  lemma ZeroGap(req: Request)
    requires |req.route| == ExpectedHops && Fees(req.route) < U64
    ensures Settles(Unpaid(req))
  {
    ThreeFees(req);
    NotWrapped(Fees(req.route));
  }

  /** What a well-built onion does at its nodes. */
  lemma {:induction false} WellBuiltTravels(
    nodes: seq<Node>, privs: seq<PrivKey>, c: Point, o: OnionEtc, floor: nat, req: Request)
    returns (hops: seq<Hop>, r1: Onion, r2: Onion, r3: Onion)
    requires |nodes| == |privs| && PeelWith(nodes, privs) && WellBuiltFor(nodes, privs, c, o, floor, req)
    ensures PassesAlong(nodes, c, o)
    ensures PeeledThrice(nodes, o, hops, r1, r2, r3)
    ensures hops[0].fee >= floor && hops[1].fee >= floor && hops[2].fee >= floor
    ensures hops[2].output.Some? && PaysRequest(hops[2].output.value, req)
    ensures hops[0].fee + hops[1].fee + hops[2].fee <= req.amount
    ensures InputFromOnion(o.onion).Some?
    ensures var input := InputFromOnion(o.onion).value;
            input.commitment == c && o.stealthSum == Sub(input.outputPubKey, input.inputPubKey)
  {
    hide PeelWith, PassesAlong, Wrapped, Inner, CipherKeys, CreateOutput, Kernel2, Stealth2, Fees, Charged,
      Serializable, ValidHop, FitsWord, Settles, InputFromOnion, PaysRequest;
    var peerPub, coin, address, ephemeral, d :|
      WellBuilt(nodes, privs, c, o, floor, req, peerPub, coin, address, ephemeral, d);
    BuilderMeetsVerifier(nodes, privs, req, peerPub, coin, address, ephemeral, d, o.onion);
    ZeroGap(req);
    ThreeFees(req);
    NotWrapped(Fees(req.route));
    var keys := CipherKeys(ephemeral, peerPub).value;
    hops := RouteHops(req, coin, address, d);
    HopsValid(req, coin, address, d);
    ThreeLayers(nodes, privs, peerPub, ephemeral, hops, o.onion);
    r1, r2, r3 := Inner(ephemeral, keys, hops, 1), Inner(ephemeral, keys, hops, 2), Inner(ephemeral, keys, hops, 3);
    assert o == OnionEtc(o.onion, o.stealthSum);
    LastHopPays(req, coin, address, d);
  }

  lemma LastHopPays(req: Request, coin: Coin, address: StealthAddress, d: Draw)
    requires Affordable(req) && HasHops(req) && HasKeys(coin)
    requires DecodeMwebAddress(TrimSpace(req.destination)) == Some(address)
    ensures var last := RouteHops(req, coin, address, d)[2];
            last.output.Some? && PaysRequest(last.output.value, req)
  {
    hide CreateOutput, Kernel2, Stealth2, Fees;
    var output := RouteHops(req, coin, address, d)[2].output.value;
    assert Pays(output, req.amount - Fees(req.route) % U64, address, d.senderKey);
    assert PaysOut(output, req.amount - Fees(req.route) % U64, address);
  }

  lemma {:induction false} ThricePays(
    nodes: seq<Node>, c: Point, o: OnionEtc, floor: nat, hops: seq<Hop>, r1: Onion, r2: Onion, r3: Onion)
    requires PeeledThrice(nodes, o, hops, r1, r2, r3)
    requires hops[0].fee >= floor && hops[1].fee >= floor && hops[2].fee >= floor
    ensures PaysAlong(nodes, c, o, floor)
  {
    hide Next, NextStealth;
    var c1, o1 := Next(nodes[0].peel, c, o), NextOnion(nodes[0].peel, o);
    var c2, o2 := Next(nodes[1].peel, c1, o1), NextOnion(nodes[1].peel, o1);
    assert nodes[1..][0] == nodes[1] && nodes[1..][1..][0] == nodes[2];
    assert PaysAlong(nodes[1..][1..], c2, o2, floor);
    assert PaysAlong(nodes[1..], c1, o1, floor);
  }

  /** What the coins are worth that the requests are for. */
  function CoinVec(reqOf: Point -> Request): Point -> Vec {
    (c: Point) => Vec(0, reqOf(c).amount)
  }

  /** All fees of the batch together are within the coins. */
  lemma {:induction false} FeesWithinCoins(
    nodes: seq<Node>, privs: seq<PrivKey>, batches: seq<Held>, floor: nat, reqOf: Point -> Request)
    requires |nodes| == |privs| == 3 && PeelWith(nodes, privs) && Travels(nodes, batches)
    requires forall c :: c in batches[0] ==> WellBuiltFor(nodes, privs, c, batches[0][c], floor, reqOf(c))
    ensures WorthTotal(nodes, batches, Nothing, 0) <= SumSet(batches[0].Keys, CoinVec(reqOf)).v
  {
    hide WellBuiltFor, PeelWith, TravelsAt, Worth, SumSet, LinkedAt, PaysRequest;
    TravelsLinked(nodes, batches, 0);
    TravelsLinked(nodes, batches, 1);
    forall c | c in batches[0] ensures Worth(nodes, batches, Nothing, 0, c) <= reqOf(c).amount {
      var hops, r1, r2, r3 := WellBuiltTravels(nodes, privs, c, batches[0][c], floor, reqOf(c));
      ThreeWorth(nodes, batches, Nothing, c, hops, r1, r2, r3);
    }
    SumBelow(batches[0].Keys, WorthVec(nodes, batches, Nothing, 0), CoinVec(reqOf));
  }

  lemma WellBuiltBatch(
    nodes: seq<Node>, privs: seq<PrivKey>, loaded: Held, floor: nat, reqOf: Point -> Request)
    requires |nodes| == |privs| == 3 && PeelWith(nodes, privs)
    requires forall c :: c in loaded ==> WellBuiltFor(nodes, privs, c, loaded[c], floor, reqOf(c))
    ensures AllAlong(nodes, loaded) && AllPayAlong(nodes, loaded, floor) && KeyedByInput(loaded)
  {
    hide WellBuiltFor, PeelWith, PassesAlong, PaysAlong, InputFromOnion, PaysRequest;
    forall c | c in loaded
      ensures PassesAlong(nodes, c, loaded[c]) && PaysAlong(nodes, c, loaded[c], floor)
      ensures InputFromOnion(loaded[c].onion).Some?
      ensures var input := InputFromOnion(loaded[c].onion).value;
              input.commitment == c && loaded[c].stealthSum == Sub(input.outputPubKey, input.inputPubKey)
    {
      var hops, r1, r2, r3 := WellBuiltTravels(nodes, privs, c, loaded[c], floor, reqOf(c));
      ThricePays(nodes, c, loaded[c], floor, hops, r1, r2, r3);
    }
  }

  /** Where the three peels lead, through linked batches. */
  lemma {:induction false} ThriceGoes(
    nodes: seq<Node>, held: seq<Held>, c: Point, hops: seq<Hop>, r1: Onion, r2: Onion, r3: Onion)
    requires |nodes| == |held| == 3 && c in held[0] && PeeledThrice(nodes, held[0][c], hops, r1, r2, r3)
    requires LinkedAt(nodes, held, 0) && LinkedAt(nodes, held, 1)
    ensures Destination(nodes, held, 0, c) == hops[2].output
  {
    hide OneToOne, NextKeys, Next;
    var c1 := Next(nodes[0].peel, c, held[0][c]);
    assert c1 in held[1] && held[1][c1] == NextOnion(nodes[0].peel, held[0][c]);
    var c2 := Next(nodes[1].peel, c1, held[1][c1]);
    assert c2 in held[2] && held[2][c2] == NextOnion(nodes[1].peel, held[1][c1]);
    assert Destination(nodes, held, 2, c2) == hops[2].output;
    assert Destination(nodes, held, 1, c1) == hops[2].output;
  }

  /** Every spent onion of a built batch pays what its own request asks for. */
  lemma BuiltPaid(
    nodes: seq<Node>, privs: seq<PrivKey>, loaded: Held, held: seq<Held>, floor: nat, reqOf: Point -> Request,
    order: seq<Point>, dest: seq<MwebOutput>)
    requires |nodes| == |privs| == |held| == 3 && PeelWith(nodes, privs) && held[0] == loaded
    requires LinkedAt(nodes, held, 0) && LinkedAt(nodes, held, 1) && PaidOut(nodes, held, 0, order, dest)
    requires forall c :: c in loaded ==> WellBuiltFor(nodes, privs, c, loaded[c], floor, reqOf(c))
    ensures PaysRequests(loaded, reqOf, order, dest)
  {
    hide WellBuiltFor, PeelWith, LinkedAt, PaysRequest, Visits;
    VisitsElements(order, held[0].Keys);
    forall i | 0 <= i < |order| ensures PaysRequest(dest[i], reqOf(order[i])) {
      var c := order[i];
      assert c in order;
      var hops, r1, r2, r3 := WellBuiltTravels(nodes, privs, c, loaded[c], floor, reqOf(c));
      ThriceGoes(nodes, held, c, hops, r1, r2, r3);
    }
  }

  /** One output for each of the onions, each what that onion's own request asks for. */
  ghost predicate PaysRequests(loaded: Held, reqOf: Point -> Request, order: seq<Point>, dest: seq<MwebOutput>) {
    && Visits(order, loaded.Keys)
    && |dest| == |order|
    && forall i :: 0 <= i < |order| ==> PaysRequest(dest[i], reqOf(order[i]))
  }

  /**
   * From the taker to the transaction: three nodes, a batch of onions well built for their requests that
   * never collide, each paying every node at least the share of a one-onion transaction, coins adding up
   * to less than 2^64. Then every run that did not miss a peer is the beginning of one that finishes; its
   * transaction spends every loaded onion, is balanced, and its outputs are, for every onion, what its
   * request leaves of the coin, to the address that the request names, and what the operators keep.
   */
  lemma BuiltBatchIsSpent(
    nodes: seq<Node>, privs: seq<PrivKey>, loaded: Held, reqOf: Point -> Request, run: seq<State>)
    returns (whole: seq<State>, order: seq<Point>, dest: seq<MwebOutput>, own: seq<MwebOutput>)
    requires |nodes| == |privs| == 3 && Topology(nodes) && SourceShares(nodes) && PeelWith(nodes, privs)
    requires loaded != map[] && NoCollisions(nodes, loaded)
    requires forall c :: c in loaded ==> WellBuiltFor(nodes, privs, c, loaded[c], FeeShare(4, 3), reqOf(c))
    requires SumSet(loaded.Keys, CoinVec(reqOf)).v < U64
    requires Run(nodes, loaded, run) && !Unreached(run[|run| - 1].stage)
    ensures Run(nodes, loaded, whole) && run <= whole
    ensures whole[|whole| - 1].stage.Done? && |whole[|whole| - 1].held| == 3
      && whole[|whole| - 1].held[0] == loaded
    ensures var tx := whole[|whole| - 1].stage.tx;
            && Spends(loaded, tx.inputs) && TxBalanced(tx)
            && PaysRequests(loaded, reqOf, order, dest)
            && |own| == 3 && multiset(tx.outputs) == multiset(dest + own)
  {
    hide WellBuiltFor, PeelWith, Topology, SourceShares, SumSet, NoCollisions, Run, Spends, TxBalanced, PaysRequests,
      Batches, CoinVec, FeeShare, LinkedAt;
    whole := BuiltBatchFinishes(nodes, privs, loaded, reqOf, run);
    RunNonempty(nodes, loaded, whole);
    var tx := whole[|whole| - 1].stage.tx;
    BatchesStart(nodes, loaded);
    order, dest, own := BatchPaid(nodes, loaded, whole, tx);
    BuiltPaid(nodes, privs, loaded, Batches(nodes, loaded), FeeShare(4, 3), reqOf, order, dest);
  }

  lemma BatchesStart(nodes: seq<Node>, batch: Held)
    requires nodes != []
    ensures Batches(nodes, batch)[0] == batch
  {
  }

  /** Such a batch travels, nothing wraps, everybody is paid. */
  lemma BuiltBatchFinishes(
    nodes: seq<Node>, privs: seq<PrivKey>, loaded: Held, reqOf: Point -> Request, run: seq<State>)
    returns (whole: seq<State>)
    requires |nodes| == |privs| == 3 && Topology(nodes) && SourceShares(nodes) && PeelWith(nodes, privs)
    requires loaded != map[] && NoCollisions(nodes, loaded)
    requires forall c :: c in loaded ==> WellBuiltFor(nodes, privs, c, loaded[c], FeeShare(4, 3), reqOf(c))
    requires SumSet(loaded.Keys, CoinVec(reqOf)).v < U64
    requires Run(nodes, loaded, run) && !Unreached(run[|run| - 1].stage)
    ensures Run(nodes, loaded, whole) && run <= whole
    ensures whole[|whole| - 1].stage.Done? && whole[|whole| - 1].held == Batches(nodes, loaded)
    ensures LinkedAt(nodes, Batches(nodes, loaded), 0) && LinkedAt(nodes, Batches(nodes, loaded), 1)
    ensures Spends(loaded, whole[|whole| - 1].stage.tx.inputs) && TxBalanced(whole[|whole| - 1].stage.tx)
  {
    hide WellBuiltFor, PeelWith, Travels, SumSet, NoCollisions, Run, Spends, KeyedByInput, FeeShare, CoinVec,
      PaysEverywhere, TxBalanced, Lost, Settles, LinkedAt, Batches;
    var batches := Batches(nodes, loaded);
    BatchesStart(nodes, loaded);
    BuiltBatchPays(nodes, privs, loaded, reqOf);
    TravelsLinked(nodes, batches, 0);
    TravelsLinked(nodes, batches, 1);
    whole := CleanBatchIsSpent(nodes, batches, run);
  }

  lemma BuiltBatchPays(nodes: seq<Node>, privs: seq<PrivKey>, loaded: Held, reqOf: Point -> Request)
    requires |nodes| == |privs| == 3 && Topology(nodes) && SourceShares(nodes) && PeelWith(nodes, privs)
    requires loaded != map[] && NoCollisions(nodes, loaded)
    requires forall c :: c in loaded ==> WellBuiltFor(nodes, privs, c, loaded[c], FeeShare(4, 3), reqOf(c))
    requires SumSet(loaded.Keys, CoinVec(reqOf)).v < U64
    ensures var batches := Batches(nodes, loaded);
            Travels(nodes, batches) && PaysEverywhere(nodes, batches) && KeyedByInput(loaded)
    ensures Settles(Lost(nodes[0].peel, loaded))
  {
    hide WellBuiltFor, PeelWith, TravelsAt, WorthTotal, SumSet, NoCollisions, KeyedByInput, AllAlong, AllPayAlong,
      AllPay, FeeShare, CoinVec, PaysEverywhere, FeeTotal, Lost, Settles, Batches;
    var floor, batches := FeeShare(4, 3), Batches(nodes, loaded);
    BatchesStart(nodes, loaded);
    WellBuiltBatch(nodes, privs, loaded, floor, reqOf);
    BatchesTravel(nodes, loaded);
    FeesWithinCoins(nodes, privs, batches, floor, reqOf);
    forall j: nat | j < |nodes| ensures AllPay(nodes[j].peel, batches[j], floor) {
      BatchesPay(nodes, loaded, floor, j);
    }
    assert |loaded| > 0;
    FloorPays(nodes, batches, floor);
    FeesWithin(nodes, batches, 0, 0);
    FitsLosesNothing(nodes[0].peel, batches[0]);
  }

  lemma BatchPaid(nodes: seq<Node>, loaded: Held, whole: seq<State>, tx: MwebTx)
    returns (order: seq<Point>, dest: seq<MwebOutput>, own: seq<MwebOutput>)
    requires Topology(nodes) && Run(nodes, loaded, whole) && whole[|whole| - 1].stage == Done(tx)
    ensures PaidOut(nodes, whole[|whole| - 1].held, 0, order, dest)
    ensures |own| == |nodes| && multiset(tx.outputs) == multiset(dest + own)
  {
    hide PaidOut, OperatorPaid, Sound, Run, Spends;
    var values, keys;
    order, dest, values, keys, own := FinishedPays(nodes, loaded, whole, tx);
  }
}
