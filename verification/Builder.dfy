/** The taker's side: build an onion for a route and a coin so that the mix nodes' checks pass. */
module Builder {
  import opened Wrappers
  import opened Bytes
  import opened Curve
  import opened Mweb
  import opened Text
  import opened MlnRoute
  import opened OnionCodec
  import opened OnionMachine
  import opened SwapSpec
  import opened Balance

  type Signature64 = s: seq<byte> | |s| == 64 witness Zeros(64)

  /** A wallet coin; the keys may be missing. */
  datatype Coin = Coin(outputId: Hash32, blind: Option<Bytes32>, spendKey: Option<Bytes32>, value: uint64)

  const DecodeMwebAddress: string -> Option<StealthAddress>
  const SignInput: (Coin, Bytes32) -> Signature64
  const SignOnion: (Onion, MwebInput, Bytes32) -> seq<byte>

  /** The secrets drawn for one onion. */
  datatype Draw = Draw(
    inputKey: Bytes32, senderKey: Bytes32, stealth0: Bytes32, stealth1: Bytes32, kernel0: Bytes32, kernel1: Bytes32)

  predicate Usable(d: Draw) {
    && d.inputKey < N && d.senderKey < N && d.stealth0 < N && d.stealth1 < N
    && d.kernel0 < N && d.kernel1 < N
  }

  /** `Crashed` stands for the panic on a route of fewer than three hops. */
  datatype BuildError = BadParams | Internal | OnionOrCrypto | Crashed

  predicate HasKeys(coin: Coin) { coin.blind.Some? && coin.spendKey.Some? }

  /** `mweb.CreateInput`: the coin's commitment, its public spend key and the input key. */
  function CreateInput(coin: Coin, inputKey: Bytes32): MwebInput
    requires HasKeys(coin)
  {
    MwebInput(coin.outputId, CoinCommitment(coin), PubKey(inputKey), PubKey(coin.spendKey.value),
      SignInput(coin, inputKey))
  }

  function CoinCommitment(coin: Coin): Point
    requires HasKeys(coin)
  {
    NewCommitment(BlindSwitch(coin.blind.value, coin.value), coin.value)
  }

  /** What is left of the coin for the destination, as the builder computes it. */
  function OutValue(req: Request): int { req.amount - Fees(req.route) % U64 }

  predicate Affordable(req: Request) { OutValue(req) > 0 }

  /** The builder makes an onion of the first three hops and does not look how many there are. */
  predicate HasHops(req: Request) { |req.route| >= ExpectedHops }

  /** What the three hops charge, without bound. */
  function Charged(req: Request): nat
    requires HasHops(req)
  {
    Fees(req.route[..ExpectedHops])
  }

  /** What the hops charge beyond what the builder took off the output in 64 bits. */
  function Unpaid(req: Request): int
    requires HasHops(req)
  {
    Charged(req) - Fees(req.route) % U64
  }

  function LastOutput(req: Request, address: StealthAddress, d: Draw): (MwebOutput, Scalar)
    requires Affordable(req)
  {
    CreateOutput(OutValue(req), address, d.senderKey)
  }

  /** An output of what the request leaves of the coin, to the address that the request names. */
  ghost predicate PaysRequest(output: MwebOutput, req: Request) {
    var address := DecodeMwebAddress(TrimSpace(req.destination));
    && address.Some?
    && req.amount > Fees(req.route) % U64
    && PaysOut(output, req.amount - Fees(req.route) % U64, address.value)
  }

  ghost predicate PaysOut(output: MwebOutput, value: nat, address: StealthAddress) {
    exists senderKey: Bytes32 :: Pays(output, value, address, senderKey)
  }

  ghost predicate Pays(output: MwebOutput, value: nat, address: StealthAddress, senderKey: Bytes32) {
    output == CreateOutput(value, address, senderKey).0
  }

  /** The last stealth key closes the sender key. */
  function Stealth2(coin: Coin, d: Draw): Scalar
    requires HasKeys(coin)
  {
    SubScalar(SubScalar(SubScalar(d.senderKey, SubScalar(coin.spendKey.value, d.inputKey)), d.stealth0), d.stealth1)
  }

  /** The last kernel blind closes the output's blind. */
  function Kernel2(coin: Coin, outBlind: Scalar, d: Draw): Scalar
    requires HasKeys(coin)
  {
    SubScalar(SubScalar(SubScalar(outBlind, BlindSwitch(coin.blind.value, coin.value)), d.kernel0), d.kernel1)
  }

  function AsBytes(k: Scalar): Bytes32 {
    ScalarFits(k);
    k
  }

  function RouteHops(req: Request, coin: Coin, address: StealthAddress, d: Draw): (hops: seq<Hop>)
    requires Affordable(req) && HasHops(req) && HasKeys(coin)
    ensures |hops| == ExpectedHops
  {
    var (output, mask) := LastOutput(req, address, d);
    [Hop(d.kernel0, d.stealth0, req.route[0].feeMinSat, None),
     Hop(d.kernel1, d.stealth1, req.route[1].feeMinSat, None),
     Hop(AsBytes(Kernel2(coin, BlindSwitch(mask, OutValue(req)), d)), AsBytes(Stealth2(coin, d)),
         req.route[2].feeMinSat, Some(output))]
  }

  /** `Onion.Sign`: the input and the owner's proof are attached. */
  function Signed(onion: Onion, input: MwebInput, spendKey: Bytes32): Onion {
    onion.(input := OnionInput(input.outputId, EncodePoint(input.commitment), EncodePoint(input.outputPubKey),
                               EncodePoint(input.inputPubKey), input.signature),
           ownerProof := SignOnion(onion, input, spendKey))
  }

  /** The onion that the builder makes of a draw. */
  ghost predicate Built(
    req: Request, peerPub: seq<seq<byte>>, coin: Coin, address: StealthAddress, ephemeral: seq<PrivKey>,
    d: Draw, onion: Onion)
  {
    && Affordable(req) && HasHops(req) && HasKeys(coin) && coin.value == req.amount && Usable(d)
    && |peerPub| == ExpectedHops && |ephemeral| > ExpectedHops
    && CipherKeys(ephemeral, peerPub).Some?
    && onion == Signed(Wrapped(ephemeral, CipherKeys(ephemeral, peerPub).value, RouteHops(req, coin, address, d)),
                       CreateInput(coin, d.inputKey), coin.spendKey.value)
    && OwnerSigVerifies(onion)
  }

  /** What the builder checks before it draws anything. */
  predicate Buildable(req: Option<Request>, peerPub: seq<seq<byte>>, coin: Option<Coin>) {
    && req.Some? && |peerPub| == ExpectedHops && coin.Some? && HasKeys(coin.value)
    && coin.value.value == req.value.amount
    && OutValue(req.value) > 0
    && DecodeMwebAddress(TrimSpace(req.value.destination)).Some?
  }

  /** A source of random bytes; reading fails when it runs dry. */
  class Entropy {
    var left: seq<Bytes32>

    constructor (left: seq<Bytes32>)
      ensures this.left == left
    {
      this.left := left;
    }

    method Read() returns (r: Option<Bytes32>)
      modifies this
      ensures r == if old(left) == [] then None else Some(old(left)[0])
      ensures left == if old(left) == [] then [] else old(left)[1..]
    {
      if left == [] {
        return None;
      }
      r, left := Some(left[0]), left[1..];
    }
  }

  /**
   * Draw until the scalars are usable, close the last hop, wrap and sign. Whatever was drawn, an onion
   * comes out only as `Built` says, and only for parameters that pass the checks.
   */
  method BuildOnion(
    request: Option<Request>, peerPub: seq<seq<byte>>, coin: Option<Coin>, rand: Entropy, ephemeral: seq<PrivKey>)
    returns (r: Result<Onion, BuildError>, ghost d: Draw)
    requires |ephemeral| > ExpectedHops
    modifies rand
    ensures r == Err(BadParams) <==> !Buildable(request, peerPub, coin)
    ensures r == Err(Crashed) ==> !HasHops(request.value)
    ensures r.Ok? ==>
      Built(request.value, peerPub, coin.value, DecodeMwebAddress(TrimSpace(request.value.destination)).value,
        ephemeral, d, r.value)
  {
    hide Built, TrimSpace;
    WidthPositive(32);
    d := Draw(0, 0, 0, 0, 0, 0);
    if request.None? || |peerPub| != ExpectedHops || coin.None? || coin.value.spendKey.None?
      || coin.value.blind.None? {
      return Err(BadParams), d;
    }
    var req := request.value;
    if coin.value.value != req.amount {
      return Err(BadParams), d;
    }
    var feeSum := FeeSum(req);
    if feeSum > req.amount {
      return Err(BadParams), d;
    }
    var outVal: uint64 := req.amount - feeSum;
    if outVal == 0 {
      return Err(BadParams), d;
    }
    var address := DecodeMwebAddress(TrimSpace(req.destination));
    if address.None? {
      return Err(BadParams), d;
    }
    for outer := 0 to 128 {
      var skInput := rand.Read();
      var skSend := rand.Read();
      var s0 := rand.Read();
      var s1 := rand.Read();
      if skInput.None? || skSend.None? || s0.None? || s1.None? {
        return Err(Internal), d;
      }
      WidthPositive(32);
      var base := Draw(skInput.value, skSend.value, s0.value, s1.value, 0, 0);
      if base.inputKey >= N || base.senderKey >= N || base.stealth0 >= N || base.stealth1 >= N
         || Stealth2(coin.value, base) >= N {
        continue;
      }
      var done;
      done, r, d := TryKernels(req, peerPub, coin.value, address.value, rand, ephemeral, base);
      if done {
        return r, d;
      }
    }
    r := Err(OnionOrCrypto);
  }

  /** The inner loop: draw kernel blinds until all three are usable, then finish the onion. */
  method TryKernels(
    req: Request, peerPub: seq<seq<byte>>, coin: Coin, address: StealthAddress, rand: Entropy,
    ephemeral: seq<PrivKey>, base: Draw)
    returns (done: bool, r: Result<Onion, BuildError>, ghost d: Draw)
    requires Affordable(req) && HasKeys(coin) && coin.value == req.amount
    requires |peerPub| == ExpectedHops && |ephemeral| > ExpectedHops
    requires base.inputKey < N && base.senderKey < N && base.stealth0 < N && base.stealth1 < N
    modifies rand
    ensures r == Err(Crashed) ==> !HasHops(req)
    ensures done && r.Ok? ==> Built(req, peerPub, coin, address, ephemeral, d, r.value)
    ensures r.Err? ==> r.error != BadParams
  {
    done, r, d := false, Err(OnionOrCrypto), base;
    var outVal := OutValue(req);
    var (output, mask) := LastOutput(req, address, base);
    for kTry := 0 to 64
      invariant !done && r == Err(OnionOrCrypto)
    {
      var k0 := rand.Read();
      var k1 := rand.Read();
      if k0.None? || k1.None? {
        return true, Err(Internal), base;
      }
      var draw := base.(kernel0 := k0.value, kernel1 := k1.value);
      var k2 := Kernel2(coin, BlindSwitch(mask, outVal), draw);
      if draw.kernel0 >= N || draw.kernel1 >= N || k2 >= N {
        continue;
      }
      if |req.route| < ExpectedHops {
        return true, Err(Crashed), draw;
      }
      var hops := [
        Hop(draw.kernel0, draw.stealth0, req.route[0].feeMinSat, None),
        Hop(draw.kernel1, draw.stealth1, req.route[1].feeMinSat, None),
        Hop(AsBytes(k2), AsBytes(Stealth2(coin, draw)), req.route[2].feeMinSat, Some(output))];
      assert hops == RouteHops(req, coin, address, draw);
      var built := New(peerPub, hops, ephemeral);
      if built.Err? {
        return true, Err(OnionOrCrypto), draw;
      }
      var onion := Signed(built.value, CreateInput(coin, draw.inputKey), coin.spendKey.value);
      if !OwnerSigVerifies(onion) {
        return true, Err(OnionOrCrypto), draw;
      }
      return true, Ok(onion), draw;
    }
  }

  /* What the mix nodes make of a built onion */

  /** `performSwap` reads the input back as it was signed. */
  lemma SignedInput(onion: Onion, input: MwebInput, spendKey: Bytes32)
    requires |input.outputId| == 32 && |input.signature| == 64
    ensures InputFromOnion(Signed(onion, input, spendKey)) == Some(input)
  {
    PointReadsBack(input.commitment);
    PointReadsBack(input.inputPubKey);
    PointReadsBack(input.outputPubKey);
    assert input.outputId[..32] == input.outputId && input.signature[..64] == input.signature;
    assert EncodePoint(input.commitment)[..33] == EncodePoint(input.commitment);
    assert EncodePoint(input.inputPubKey)[..33] == EncodePoint(input.inputPubKey);
    assert EncodePoint(input.outputPubKey)[..33] == EncodePoint(input.outputPubKey);
  }

  /** A built onion is admitted to the queue if the chain knows the coin and the input signature is good. */
  lemma BuiltIsValid(
    req: Request, peerPub: seq<seq<byte>>, coin: Coin, address: StealthAddress, ephemeral: seq<PrivKey>,
    d: Draw, onion: Onion, coins: map<seq<byte>, MwebOutput>)
    requires Built(req, peerPub, coin, address, ephemeral, d, onion)
    ensures var input := CreateInput(coin, d.inputKey);
            ValidOnion(coins, onion) <==>
              && coin.outputId in coins
              && coins[coin.outputId].commitment == CoinCommitment(coin)
              && coins[coin.outputId].receiverPubKey == PubKey(coin.spendKey.value)
              && InputSigVerifies(input)
  {
    hide Wrapped, RouteHops;
    SignedInput(Wrapped(ephemeral, CipherKeys(ephemeral, peerPub).value, RouteHops(req, coin, address, d)),
                CreateInput(coin, d.inputKey), coin.spendKey.value);
  }

  /** The onion passes the peel, position and output checks of all these nodes, one after the other. */
  predicate PassesAlong(nodes: seq<Node>, commit: Point, o: OnionEtc) {
    nodes == []
    || (Passes(nodes[0], commit, o)
        && PassesAlong(nodes[1..], Next(nodes[0].peel, commit, o), NextOnion(nodes[0].peel, o)))
  }

  /** The three nodes of a route, peeling with the keys whose public halves the route names. */
  predicate RouteNodes(nodes: seq<Node>, privs: seq<PrivKey>, peerPub: seq<seq<byte>>) {
    && |nodes| == |privs| == |peerPub| == ExpectedHops
    && forall i :: 0 <= i < ExpectedHops ==>
         && nodes[i].index == i && nodes[i].count == ExpectedHops
         && peerPub[i] == x25519.publicKey(privs[i])
  }

  /** Each node peels with its own key. */
  ghost predicate PeelWith(nodes: seq<Node>, privs: seq<PrivKey>)
    requires |nodes| == |privs|
  {
    forall i, o {:trigger nodes[i].peel(o)} :: 0 <= i < |nodes| ==> nodes[i].peel(o) == Peeling(privs[i], o)
  }

  /** One step along the onion when the layer's hop is known: names of the next commitment and stealth sum. */
  lemma StepAlong(peel: Peeler, x: Vec, o: OnionEtc, y: Vec, hop: Hop, rest: Onion)
    requires peel(o.onion) == Ok(Peeled(hop, rest)) && o.stealthSum == P(y)
    ensures Next(peel, P(x), o) == P(Vec(x.g + hop.kernelBlind, x.v - hop.fee))
    ensures NextOnion(peel, o) == OnionEtc(rest, P(Vec(y.g + hop.stealthBlind, y.v)))
  {
    AddNames(x, Vec(hop.kernelBlind, 0));
    SubNames(x.Plus(Vec(hop.kernelBlind, 0)), Vec(0, hop.fee));
    AddNames(y, Vec(hop.stealthBlind, 0));
    assert x.Plus(Vec(hop.kernelBlind, 0)).Minus(Vec(0, hop.fee)) == Vec(x.g + hop.kernelBlind, x.v - hop.fee);
    assert y.Plus(Vec(hop.stealthBlind, 0)) == Vec(y.g + hop.stealthBlind, y.v);
  }

  /** Four reduced subtractions stand for the unreduced difference. */
  lemma SubNamesThrice(a: int, b: int, c: int, d: int, v: int)
    ensures Same(Vec(SubScalar(SubScalar(SubScalar(a, b), c), d), v), Vec(a - b - c - d, v))
  {
    SameReduce(a - b, v);
    SameReduce(SubScalar(a, b) - c, v);
    SameReduce(SubScalar(SubScalar(a, b), c) - d, v);
    SameShift(Vec(SubScalar(a, b), v), Vec(a - b, v), Vec(0 - c, 0));
    SameShift(Vec(SubScalar(a, b), v), Vec(a - b, v), Vec(0 - c - d, 0));
    SameShift(Vec(SubScalar(SubScalar(a, b), c), v), Vec(SubScalar(a, b) - c, v), Vec(0 - d, 0));
    assert Vec(SubScalar(a, b), v).Plus(Vec(0 - c, 0)) == Vec(SubScalar(a, b) - c, v);
  }

  /** The kernel blinds of the three hops add up to the difference of the blinds. */
  lemma KernelsClose(coin: Coin, outBlind: Scalar, d: Draw, v: int)
    requires HasKeys(coin)
    ensures Same(
      Vec(BlindSwitch(coin.blind.value, coin.value) + d.kernel0 + d.kernel1 + Kernel2(coin, outBlind, d), v),
      Vec(outBlind, v))
  {
    var b := BlindSwitch(coin.blind.value, coin.value);
    SubNamesThrice(outBlind, b, d.kernel0, d.kernel1, v);
    SameShift(Vec(Kernel2(coin, outBlind, d), v), Vec(outBlind - b - d.kernel0 - d.kernel1, v),
      Vec(b + d.kernel0 + d.kernel1, 0));
  }

  /** The stealth keys of the three hops take the input's stealth sum to the sender key. */
  lemma StealthCloses(coin: Coin, d: Draw)
    requires HasKeys(coin)
    ensures Same(Vec(coin.spendKey.value - d.inputKey + d.stealth0 + d.stealth1 + Stealth2(coin, d), 0),
      Vec(d.senderKey, 0))
  {
    var t := SubScalar(coin.spendKey.value, d.inputKey);
    SubNamesThrice(d.senderKey, t, d.stealth0, d.stealth1, 0);
    SameReduce(coin.spendKey.value - d.inputKey, 0);
    SameShift(Vec(t, 0), Vec(coin.spendKey.value - d.inputKey, 0),
      Vec(d.stealth0 + d.stealth1 + Stealth2(coin, d), 0));
    SameShift(Vec(Stealth2(coin, d), 0), Vec(d.senderKey - t - d.stealth0 - d.stealth1, 0),
      Vec(t + d.stealth0 + d.stealth1, 0));
    assert Vec(t, 0).Plus(Vec(d.stealth0 + d.stealth1 + Stealth2(coin, d), 0))
        == Vec(Stealth2(coin, d), 0).Plus(Vec(t + d.stealth0 + d.stealth1, 0));
  }

  /** The two ends of the chain, as the last node compares them. */
  lemma ChainCloses(req: Request, coin: Coin, address: StealthAddress, d: Draw)
    requires Affordable(req) && HasHops(req) && HasKeys(coin) && coin.value == req.amount
    ensures var (output, mask) := LastOutput(req, address, d);
      var bIn := BlindSwitch(coin.blind.value, coin.value);
      var k2 := Kernel2(coin, BlindSwitch(mask, OutValue(req)), d);
      && (P(Vec(bIn + d.kernel0 + d.kernel1 + k2, coin.value - Charged(req))) == output.commitment <==>
        Settles(Unpaid(req)))
      && P(Vec(coin.spendKey.value - d.inputKey + d.stealth0 + d.stealth1 + Stealth2(coin, d), 0)) ==
        output.senderPubKey
  {
    hide Stealth2, Kernel2, Fees;
    var (output, mask) := LastOutput(req, address, d);
    var outBlind := BlindSwitch(mask, OutValue(req));
    KernelsClose(coin, outBlind, d, coin.value - Charged(req));
    StealthCloses(coin, d);
    ValuesAgree(outBlind, OutValue(req), Unpaid(req));
  }

  lemma ValuesAgree(blind: int, value: int, gap: int)
    ensures Same(Vec(blind, value - gap), Vec(blind, value)) <==> Settles(gap)
  {
    SameDifference(Vec(blind, value), Vec(blind, value - gap));
    assert Vec(blind, value).Minus(Vec(blind, value - gap)) == Vec(0, gap);
  }

  /** What the three hops charge. */
  lemma ThreeFees(req: Request)
    requires HasHops(req)
    ensures Charged(req) == req.route[0].feeMinSat + req.route[1].feeMinSat + req.route[2].feeMinSat
    ensures |req.route| == ExpectedHops ==> Charged(req) == Fees(req.route)
  {
    var route := req.route[..ExpectedHops];
    FeesStep(route, 0);
    FeesStep(route, 1);
    FeesStep(route, 2);
    assert route[..0] == [] && route[..3] == route;
    assert |req.route| == ExpectedHops ==> route == req.route;
  }

  /**
   * Builder meets verifier: for every route, coin and draw, the onion that the builder returns passes
   * the peel, position and output checks of the three nodes, starting from the commitment and stealth
   * sum that node 0 derives from its input, if and only if its output's proofs verify and the hops charge
   * what the builder took off in 64 bits, up to a multiple of H that is the identity.
   */
  lemma {:induction false} BuilderMeetsVerifier(
    nodes: seq<Node>, privs: seq<PrivKey>, req: Request, peerPub: seq<seq<byte>>, coin: Coin, address: StealthAddress,
    ephemeral: seq<PrivKey>, d: Draw, onion: Onion)
    requires Built(req, peerPub, coin, address, ephemeral, d, onion)
    requires RouteNodes(nodes, privs, peerPub) && PeelWith(nodes, privs)
    requires var output := LastOutput(req, address, d).0;
             Serializable(output) && |SerializeOutput(output)| + 106 < U64
    ensures var input := CreateInput(coin, d.inputKey);
            var output := LastOutput(req, address, d).0;
            && InputFromOnion(onion) == Some(input)
            && (PassesAlong(nodes, input.commitment, OnionEtc(onion, Sub(input.outputPubKey, input.inputPubKey))) <==>
                  && Settles(Unpaid(req))
                  && output.rangeProof.Some?
                  && RangeProofVerifies(output.rangeProof.value, output.commitment, output.message)
                  && OutputSigVerifies(output))
  {
    hide Kernel2, Stealth2, Fees, Charged, Peeling, CipherKeys, Wrapped, Inner, CreateOutput, Next, NextOnion,
      Settles, FitsWord, ValidHop, Serializable, PassesAlong, PeelWith;
    var input := CreateInput(coin, d.inputKey);
    var hops := RouteHops(req, coin, address, d);
    var keys := CipherKeys(ephemeral, peerPub).value;
    var wrapped := Wrapped(ephemeral, keys, hops);
    SignedInput(wrapped, input, coin.spendKey.value);
    SubNames(Vec(coin.spendKey.value, 0), Vec(d.inputKey, 0));
    HopsValid(req, coin, address, d);
    ThreeLayers(nodes, privs, peerPub, ephemeral, hops, onion);
    ThreeFees(req);
    var bIn := BlindSwitch(coin.blind.value, coin.value);
    var x0, y0 := Vec(bIn, coin.value), Vec(coin.spendKey.value - d.inputKey, 0);
    ThreeSteps(nodes, ephemeral, keys, hops, onion, x0, y0);
    ChainCloses(req, coin, address, d);
  }

  lemma HopsValid(req: Request, coin: Coin, address: StealthAddress, d: Draw)
    requires Affordable(req) && HasHops(req) && HasKeys(coin) && Usable(d)
    requires var output := LastOutput(req, address, d).0;
             Serializable(output) && |SerializeOutput(output)| + 106 < U64
    ensures var hops := RouteHops(req, coin, address, d);
            FitsWord(hops) && forall i :: 0 <= i < ExpectedHops ==> ValidHop(hops[i])
  {
    hide Kernel2, Stealth2, Fees, CreateOutput;
  }

  /** The three peels. */
  lemma ThreeLayers(
    nodes: seq<Node>, privs: seq<PrivKey>, peerPub: seq<seq<byte>>, ephemeral: seq<PrivKey>, hops: seq<Hop>,
    onion: Onion)
    requires |hops| == ExpectedHops && |ephemeral| > ExpectedHops
    requires RouteNodes(nodes, privs, peerPub) && PeelWith(nodes, privs)
    requires CipherKeys(ephemeral, peerPub).Some?
    requires var w := Wrapped(ephemeral, CipherKeys(ephemeral, peerPub).value, hops);
             onion.payloads == w.payloads && onion.pubKey == w.pubKey
    requires FitsWord(hops) && forall i :: 0 <= i < ExpectedHops ==> ValidHop(hops[i])
    ensures var keys := CipherKeys(ephemeral, peerPub).value;
            && nodes[0].peel(onion) == Ok(Peeled(hops[0], Inner(ephemeral, keys, hops, 1)))
            && nodes[1].peel(Inner(ephemeral, keys, hops, 1)) == Ok(Peeled(hops[1], Inner(ephemeral, keys, hops, 2)))
            && nodes[2].peel(Inner(ephemeral, keys, hops, 2)) == Ok(Peeled(hops[2], Inner(ephemeral, keys, hops, 3)))
  {
    hide Peeling, CipherKeys, Wrapped, ValidHop, FitsWord;
    var keys := CipherKeys(ephemeral, peerPub).value;
    PeelLayer(privs, ephemeral, peerPub, hops, 0);
    PeelLayer(privs, ephemeral, peerPub, hops, 1);
    PeelLayer(privs, ephemeral, peerPub, hops, 2);
    assert ephemeral[0..] == ephemeral && keys[0..] == keys && hops[0..] == hops;
    PeelingIgnoresInput(privs[0], onion, Wrapped(ephemeral, keys, hops));
  }

  /** Passing along three nodes is passing the last node's output check at the sum of the hops. */
  lemma {:induction false} ThreeSteps(
    nodes: seq<Node>, ephemeral: seq<PrivKey>, keys: seq<Secret>, hops: seq<Hop>, onion: Onion, x: Vec, y: Vec)
    requires |nodes| == |hops| == |keys| == ExpectedHops < |ephemeral|
    requires forall i :: 0 <= i < ExpectedHops ==> nodes[i].index == i && nodes[i].count == ExpectedHops
    requires nodes[0].peel(onion) == Ok(Peeled(hops[0], Inner(ephemeral, keys, hops, 1)))
    requires nodes[1].peel(Inner(ephemeral, keys, hops, 1)) == Ok(Peeled(hops[1], Inner(ephemeral, keys, hops, 2)))
    requires nodes[2].peel(Inner(ephemeral, keys, hops, 2)) == Ok(Peeled(hops[2], Inner(ephemeral, keys, hops, 3)))
    requires hops[0].output.None? && hops[1].output.None? && hops[2].output.Some?
    ensures PassesAlong(nodes, P(x), OnionEtc(onion, P(y))) <==>
      OutputAccepted(hops[2].output.value,
                     P(Vec(x.g + hops[0].kernelBlind + hops[1].kernelBlind + hops[2].kernelBlind,
                           x.v - hops[0].fee - hops[1].fee - hops[2].fee)),
                     P(Vec(y.g + hops[0].stealthBlind + hops[1].stealthBlind + hops[2].stealthBlind, y.v)))
  {
    hide Inner, Next, NextOnion, OutputAccepted;
    var o0 := OnionEtc(onion, P(y));
    var x1, y1 := Vec(x.g + hops[0].kernelBlind, x.v - hops[0].fee), Vec(y.g + hops[0].stealthBlind, y.v);
    var x2, y2 := Vec(x1.g + hops[1].kernelBlind, x1.v - hops[1].fee), Vec(y1.g + hops[1].stealthBlind, y1.v);
    var o1, o2 := OnionEtc(Inner(ephemeral, keys, hops, 1), P(y1)), OnionEtc(Inner(ephemeral, keys, hops, 2), P(y2));
    StepAlong(nodes[0].peel, x, o0, y, hops[0], Inner(ephemeral, keys, hops, 1));
    StepAlong(nodes[1].peel, x1, o1, y1, hops[1], Inner(ephemeral, keys, hops, 2));
    StepAlong(nodes[2].peel, x2, o2, y2, hops[2], Inner(ephemeral, keys, hops, 3));
    LastStep(nodes[2], P(x2), o2);
    assert nodes[1..][0] == nodes[1] && nodes[1..][1..] == [nodes[2]];
    assert PassesAlong(nodes[1..], P(x1), o1) <==> PassesAlong([nodes[2]], P(x2), o2);
  }

  /** At the last node only the output check is left. */
  lemma {:induction false} LastStep(node: Node, commit: Point, o: OnionEtc)
    requires Peels(node.peel, o) && node.Last() && HopOf(node.peel, o).output.Some?
    ensures PassesAlong([node], commit, o) <==>
      OutputAccepted(HopOf(node.peel, o).output.value, Next(node.peel, commit, o), NextStealth(node.peel, o))
    ensures NextOnion(node.peel, o).stealthSum == NextStealth(node.peel, o)
  {
    hide OutputAccepted;
  }

  /**
   * What the three keys of the route take out of a built onion, in this order: each hop's own fee and the
   * blinds that were drawn for it, nothing to pay at the first two, and at the third an output of what
   * the request leaves of the coin to the address that it names.
   */
  lemma BuiltPays(
    privs: seq<PrivKey>, req: Request, peerPub: seq<seq<byte>>, coin: Coin, address: StealthAddress,
    ephemeral: seq<PrivKey>, d: Draw, onion: Onion) returns (hops: seq<Hop>)
    requires Built(req, peerPub, coin, address, ephemeral, d, onion)
    requires DecodeMwebAddress(TrimSpace(req.destination)) == Some(address)
    requires |privs| == ExpectedHops && forall i :: 0 <= i < ExpectedHops ==> peerPub[i] == x25519.publicKey(privs[i])
    requires var output := LastOutput(req, address, d).0;
             Serializable(output) && |SerializeOutput(output)| + 106 < U64
    ensures PeelAll(privs, onion) == Ok((hops, Bare)) && |hops| == ExpectedHops
    ensures forall i :: 0 <= i < ExpectedHops ==> hops[i].fee == req.route[i].feeMinSat
    ensures hops[0].kernelBlind == d.kernel0 && hops[0].stealthBlind == d.stealth0 && hops[0].output == None
    ensures hops[1].kernelBlind == d.kernel1 && hops[1].stealthBlind == d.stealth1 && hops[1].output == None
    ensures hops[2].output.Some? && PaysRequest(hops[2].output.value, req)
  {
    hide Kernel2, Stealth2, Fees, CipherKeys, Wrapped, FitsWord, ValidHop, Serializable, PeelAll, CreateOutput;
    hops := RouteHops(req, coin, address, d);
    assert Pays(hops[2].output.value, req.amount - Fees(req.route) % U64, address, d.senderKey);
    HopsValid(req, coin, address, d);
    OnionRoundTrip(onion, privs, ephemeral, peerPub, hops, privs[0]);
  }
}
