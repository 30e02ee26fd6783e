/** The route request of a taker and the rules that every component checks it by. */
module MlnRoute {
  import opened Wrappers
  import opened Bytes
  import opened Mweb
  import opened Text

  const ExpectedHops: nat := 3

  datatype RouteHop = RouteHop(tor: string, feeMinSat: uint64, swapKey: string, operator: string)

  datatype Request = Request(
    route: seq<RouteHop>,
    destination: string,
    amount: uint64,
    epochId: string,
    accuser: string,
    swapId: string)

  predicate Blank(s: string) { TrimSpace(s) == [] }

  /** 64 lower-case hexadecimal digits. */
  predicate SwapKey(k: string) { |k| == 64 && AllLowerHex(k) }

  /** The hop fees added up without bound. */
  function Fees(route: seq<RouteHop>): nat {
    if route == [] then 0 else Fees(route[..|route| - 1]) + route[|route| - 1].feeMinSat
  }

  lemma {:induction false} FeesGrow(route: seq<RouteHop>, k: nat)
    requires k <= |route|
    ensures Fees(route[..k]) <= Fees(route)
  {
    if k < |route| {
      FeesGrow(route[..|route| - 1], k);
      assert route[..|route| - 1][..k] == route[..k];
    } else {
      assert route[..k] == route;
    }
  }

  lemma FeesStep(route: seq<RouteHop>, i: nat)
    requires i < |route|
    ensures Fees(route[..i + 1]) == Fees(route[..i]) + route[i].feeMinSat
  {
    assert route[..i + 1][..i] == route[..i];
  }

  /** `addFee`: the test before the addition rejects exactly the sums that do not fit 64 bits. */
  function AddFee(sum: uint64, add: uint64): (r: Option<uint64>)
    ensures r.Some? <==> sum + add < U64
    ensures r.Some? ==> r.value == sum + add
  {
    if add != 0 && sum > (U64 - 1) - add then None else Some((sum + add) % U64)
  }

  /** An address with or without its prefix, surrounded by blanks. */
  function AddressOf(s: string): Option<Address> {
    var t := TrimSpace(s);
    var digits := if |t| >= 2 && t[0] == '0' && (t[1] == 'x' || t[1] == 'X') then t[2..] else t;
    if |digits| == 40 && AllHex(digits) then Some(HexDecode(digits).value) else None
  }

  /** A swap key on every hop, or on none. */
  predicate UniformKeys(route: seq<RouteHop>) {
    || (forall i :: 0 <= i < |route| ==> NoKey(route[i]))
    || (forall i :: 0 <= i < |route| ==> GoodKey(route[i]))
  }

  predicate NoKey(h: RouteHop) { Blank(h.swapKey) }

  predicate GoodKey(h: RouteHop) { SwapKey(TrimSpace(h.swapKey)) }

  predicate HasTor(h: RouteHop) { !Blank(h.tor) }

  predicate HasOperator(h: RouteHop) {
    AddressOf(h.operator).Some? && AddressOf(h.operator).value != Zeros(20)
  }

  /** The fields that coordinate a grievance: all missing, or all present and well formed. */
  predicate Coordinated(req: Request) {
    || (Blank(req.epochId) && Blank(req.accuser) && Blank(req.swapId))
    || (&& !Blank(req.swapId)
        && EpochOf(req).Some?
        && AddressOf(req.accuser).Some?
        && forall i :: 0 <= i < |req.route| ==> HasOperator(req.route[i]))
  }

  function EpochOf(req: Request): Option<nat> {
    match ParseDecimal(TrimSpace(req.epochId))
    case None => None
    case Some(v) => if v < 0 then None else Some(v)
  }

  /** What the request validators accept, with the fees summed without bound. */
  predicate Acceptable(req: Request) {
    && |req.route| == ExpectedHops
    && !Blank(req.destination)
    && req.amount > 0
    && (forall i :: 0 <= i < |req.route| ==> HasTor(req.route[i]))
    && Fees(req.route) <= req.amount
    && UniformKeys(req.route)
    && Coordinated(req)
  }

  /**
   * `Validate`: 64-bit arithmetic decides the unbounded rule exactly. The sidecar runs the same
   * statements over the same fields.
   */
  method Validate(request: Option<Request>) returns (ok: bool)
    ensures ok <==> request.Some? && Acceptable(request.value)
  {
    if request.None? {
      return false;
    }
    var req := request.value;
    if |req.route| != ExpectedHops || Blank(req.destination) || req.amount == 0 {
      return false;
    }
    hide Fees, HasTor, UniformKeys, Coordinated, TrimSpace;
    var feeSum := CheckHops(req.route);
    if feeSum.None? || feeSum.value > req.amount {
      return false;
    }
    var keys := CheckKeys(req.route);
    if !keys {
      return false;
    }
    ok := CheckMetadata(req);
  }

  /** The loop over the hops: an address each, and fees that add up in 64 bits. */
  method CheckHops(route: seq<RouteHop>) returns (feeSum: Option<uint64>)
    ensures feeSum.Some? <==> Fees(route) < U64 && forall i :: 0 <= i < |route| ==> HasTor(route[i])
    ensures feeSum.Some? ==> feeSum.value == Fees(route)
  {
    hide HasTor, Fees, AddFee;
    var sum: uint64 := 0;
    NoFees();
    for i := 0 to |route|
      invariant sum == Fees(route[..i])
      invariant forall k :: 0 <= k < i ==> HasTor(route[k])
    {
      FeesStep(route, i);
      FeesGrow(route, i + 1);
      if !HasTor(route[i]) {
        return None;
      }
      var next := AddFee(sum, route[i].feeMinSat);
      if next.None? {
        return None;
      }
      sum := next.value;
    }
    assert route[..|route|] == route;
    feeSum := Some(sum);
  }

  lemma NoFees()
    ensures Fees([]) == 0
  {
  }

  /** The loop over the swap keys: count those that are set, each must be well formed. */
  method CheckKeys(route: seq<RouteHop>) returns (ok: bool)
    requires route != []
    ensures ok <==> UniformKeys(route)
  {
    hide NoKey, GoodKey;
    var withKey := 0;
    for i := 0 to |route|
      invariant 0 <= withKey <= i
      invariant withKey == 0 <==> forall k :: 0 <= k < i ==> NoKey(route[k])
      invariant withKey == i <==> forall k :: 0 <= k < i ==> !NoKey(route[k])
      invariant forall k :: 0 <= k < i ==> NoKey(route[k]) || GoodKey(route[k])
    {
      NoGoodKey(route[i]);
      if NoKey(route[i]) {
        continue;
      }
      if !GoodKey(route[i]) {
        return false;
      }
      withKey := withKey + 1;
    }
    ok := withKey == 0 || withKey == |route|;
    if !ok {
      var j :| 0 <= j < |route| && NoKey(route[j]);
      NoGoodKey(route[j]);
    }
  }

  lemma NoGoodKey(h: RouteHop)
    ensures NoKey(h) ==> !GoodKey(h)
  {
  }

  /** `validateLitVMMetadata`. */
  method CheckMetadata(req: Request) returns (ok: bool)
    ensures ok <==> Coordinated(req)
  {
    hide AddressOf, ParseDecimal, TrimSpace;
    var e, a, s := TrimSpace(req.epochId), TrimSpace(req.accuser), TrimSpace(req.swapId);
    BlankIsNothing();
    if e == [] && a == [] && s == [] {
      return true;
    }
    if e == [] || a == [] || s == [] {
      return false;
    }
    var epoch := ParseDecimal(e);
    if epoch.None? || epoch.value < 0 {
      return false;
    }
    if AddressOf(req.accuser).None? {
      return false;
    }
    for i := 0 to |req.route|
      invariant forall k :: 0 <= k < i ==> HasOperator(req.route[k])
    {
      var operator := AddressOf(req.route[i].operator);
      if operator.None? || operator.value == Zeros(20) {
        return false;
      }
    }
    return true;
  }

  /** Nothing but blanks is neither a number nor an address. */
  lemma BlankIsNothing()
    ensures ParseDecimal([]).None?
    ensures forall s :: Blank(s) ==> AddressOf(s).None?
  {
  }

  /** `FeeSum`: the fees added up in 64 bits. */
  method FeeSum(req: Request) returns (s: uint64)
    ensures s == Fees(req.route) % U64
  {
    s := 0;
    for i := 0 to |req.route|
      invariant s == Fees(req.route[..i]) % U64
    {
      FeesStep(req.route, i);
      s := (s + req.route[i].feeMinSat) % U64;
    }
    assert req.route[..|req.route|] == req.route;
  }

  /* Swap keys */

  /** `NormalizeTor`. */
  function NormalizeTor(tor: string): string {
    var s := TrimSpace(tor);
    if s != [] && s[|s| - 1] == '/' then s[..|s| - 1] else s
  }

  /** The key a hop names itself, else the one configured for its address. */
  function KeyTextOf(h: RouteHop, keys: map<string, string>): string {
    var own := TrimSpace(h.swapKey);
    if own != [] then own
    else if NormalizeTor(h.tor) in keys then TrimSpace(keys[NormalizeTor(h.tor)])
    else []
  }

  /**
   * What acceptance comes to in the fields of a request: three hops, each with an address; a destination
   * and an amount that covers the fees; on each hop a key of 64 lower-case digits or on none; and epoch,
   * accuser and swap id all missing, or all there with an operator other than zero on each hop.
   */
  lemma AcceptableExactly(req: Request)
    ensures Acceptable(req) <==>
      && |req.route| == 3
      && TrimSpace(req.destination) != []
      && 0 < req.amount && Fees(req.route) <= req.amount
      && (forall i :: 0 <= i < |req.route| ==> TrimSpace(req.route[i].tor) != [])
      && (|| (forall i :: 0 <= i < |req.route| ==> TrimSpace(req.route[i].swapKey) == [])
          || (forall i :: 0 <= i < |req.route| ==>
                |TrimSpace(req.route[i].swapKey)| == 64 && AllLowerHex(TrimSpace(req.route[i].swapKey))))
      && (|| (TrimSpace(req.epochId) == [] && TrimSpace(req.accuser) == [] && TrimSpace(req.swapId) == [])
          || (&& TrimSpace(req.swapId) != []
              && ParseDecimal(TrimSpace(req.epochId)).Some? && ParseDecimal(TrimSpace(req.epochId)).value >= 0
              && AddressOf(req.accuser).Some?
              && forall i :: 0 <= i < |req.route| ==>
                   AddressOf(req.route[i].operator).Some? && AddressOf(req.route[i].operator).value != Zeros(20)))
  {
    hide TrimSpace, Fees, AddressOf, ParseDecimal;
    assert UniformKeys(req.route) <==>
      || (forall i :: 0 <= i < |req.route| ==> NoKey(req.route[i]))
      || (forall i :: 0 <= i < |req.route| ==> GoodKey(req.route[i]));
  }

  /** A key is found under the hop's trimmed address, with or without a slash at the end. */
  lemma ConfiguredKey(h: RouteHop, keys: map<string, string>, address: string)
    requires TrimSpace(h.swapKey) == []
    requires TrimSpace(h.tor) == address || TrimSpace(h.tor) == address + "/"
    requires address != [] && address[|address| - 1] != '/'
    ensures KeyTextOf(h, keys) == if address in keys then TrimSpace(keys[address]) else []
  {
    hide TrimSpace;
    assert (address + "/")[..|address|] == address;
  }

  /** An accepted request that names one key names them all, and they resolve whatever is configured. */
  lemma AcceptedKeysResolve(req: Request, keys: map<string, string>)
    requires Acceptable(req) && exists i :: 0 <= i < |req.route| && !NoKey(req.route[i])
    ensures forall i :: 0 <= i < |req.route| ==>
      KeyTextOf(req.route[i], keys) == TrimSpace(req.route[i].swapKey) && SwapKey(KeyTextOf(req.route[i], keys))
  {
    hide TrimSpace, Fees, Coordinated, HasTor;
  }

  /** `ResolveX25519PubKeys`: one raw key per hop, or nothing. */
  method ResolveKeys(req: Request, keys: map<string, string>) returns (r: Option<seq<seq<byte>>>)
    ensures r.Some? <==> forall i :: 0 <= i < |req.route| ==> SwapKey(KeyTextOf(req.route[i], keys))
    ensures r.Some? ==> |r.value| == |req.route|
    ensures r.Some? ==> forall i :: 0 <= i < |req.route| ==>
      |r.value[i]| == 32 && HexEncode(r.value[i]) == KeyTextOf(req.route[i], keys)
  {
    hide KeyTextOf;
    var out: seq<seq<byte>> := [];
    for i := 0 to |req.route|
      invariant |out| == i
      invariant forall k :: 0 <= k < i ==> SwapKey(KeyTextOf(req.route[k], keys))
      invariant forall k :: 0 <= k < i ==> |out[k]| == 32 && HexEncode(out[k]) == KeyTextOf(req.route[k], keys)
    {
      var text := KeyTextOf(req.route[i], keys);
      if !SwapKey(text) {
        return None;
      }
      HexWritesBack(text);
      out := out + [HexDecode(text).value];
    }
    r := Some(out);
  }
}

/** The published hop list: its validation, and the requests and peers made from it. */
module MixnetDir {
  import opened Wrappers
  import opened Bytes
  import opened Mweb
  import opened Text
  import opened MlnRoute

  datatype DirectoryHop = DirectoryHop(tor: string, swapKey: string, feeMinSat: uint64)

  datatype Directory = Directory(amountSat: uint64, hops: seq<DirectoryHop>)

  /** The hop as a route request names it. */
  function ToRouteHop(h: DirectoryHop): RouteHop {
    RouteHop(TrimSpace(h.tor), h.feeMinSat, TrimSpace(h.swapKey), [])
  }

  function ToRoute(hops: seq<DirectoryHop>): (r: seq<RouteHop>)
    ensures |r| == |hops| && forall i :: 0 <= i < |hops| ==> r[i] == ToRouteHop(hops[i])
  {
    seq(|hops|, i requires 0 <= i < |hops| => ToRouteHop(hops[i]))
  }

  predicate Published(h: DirectoryHop) {
    !Blank(h.tor) && SwapKey(TrimSpace(h.swapKey)) && h.feeMinSat > 0
  }

  /** A directory whose hops leave something of its amount. */
  predicate Listed(d: Directory) {
    && |d.hops| == ExpectedHops
    && d.amountSat > 0
    && (forall i :: 0 <= i < |d.hops| ==> Published(d.hops[i]))
    && Fees(ToRoute(d.hops)) < d.amountSat
  }

  lemma IsPublished(h: DirectoryHop)
    ensures var k := TrimSpace(h.swapKey);
            Published(h) <==> !(TrimSpace(h.tor) == [] || |k| != 64 || !AllLowerHex(k) || h.feeMinSat == 0)
  {
  }

  /** Add in 64 bits, then compare: a wrapped sum is smaller than what it started from. */
  function WrapAdd(sum: uint64, add: uint64): (r: Option<uint64>)
    ensures r.Some? <==> sum + add < U64
    ensures r.Some? ==> r.value == sum + add
  {
    var next := (sum + add) % U64;
    if next < sum then None else Some(next)
  }

  /** A node that can be dialled. */
  datatype Peer = Peer(url: string, pubKey: string)

  function PeerOf(h: DirectoryHop): Peer { Peer(TrimSpace(h.tor), TrimSpace(h.swapKey)) }

  lemma PeerCarries(h: DirectoryHop)
    ensures PeerOf(h).url == TrimSpace(h.tor) && PeerOf(h).pubKey == TrimSpace(h.swapKey)
  {
    hide TrimSpace;
  }

  /**
   * `loadMLNDirectoryPeers`, and `Validate` of the command line, which runs the same tests: adding
   * first and testing for a wrapped sum also decides the unbounded rule exactly.
   */
  method LoadPeers(d: Directory) returns (peers: Option<seq<Peer>>)
    ensures peers.Some? <==> Listed(d)
    ensures peers.Some? ==> |peers.value| == |d.hops|
    ensures peers.Some? ==> forall i :: 0 <= i < |d.hops| ==> peers.value[i] == PeerOf(d.hops[i])
    ensures peers.Some? ==> forall i :: 0 <= i < |d.hops| ==>
      peers.value[i].url == TrimSpace(d.hops[i].tor) && peers.value[i].pubKey == TrimSpace(d.hops[i].swapKey)
  {
    hide TrimSpace, Published, PeerOf, Fees, WrapAdd, AllLowerHex;
    if |d.hops| != ExpectedHops || d.amountSat == 0 {
      return None;
    }
    NoFees();
    var feeSum: uint64 := 0;
    var nodes := [];
    ghost var route := ToRoute(d.hops);
    for i := 0 to |d.hops|
      invariant feeSum == Fees(route[..i])
      invariant |nodes| == i
      invariant forall k :: 0 <= k < i ==> Published(d.hops[k]) && nodes[k] == PeerOf(d.hops[k])
      invariant forall k :: 0 <= k < i ==>
        nodes[k].url == TrimSpace(d.hops[k].tor) && nodes[k].pubKey == TrimSpace(d.hops[k].swapKey)
    {
      var h := d.hops[i];
      FeesStep(route, i);
      FeesGrow(route, i + 1);
      var k := TrimSpace(h.swapKey);
      IsPublished(h);
      if TrimSpace(h.tor) == [] || |k| != 64 || !AllLowerHex(k) || h.feeMinSat == 0 {
        return None;
      }
      var next := WrapAdd(feeSum, h.feeMinSat);
      if next.None? {
        return None;
      }
      feeSum := next.value;
      PeerCarries(h);
      nodes := nodes + [PeerOf(h)];
    }
    assert route[..|route|] == route;
    if feeSum >= d.amountSat {
      return None;
    }
    peers := Some(nodes);
  }

  /** The request that a directory stands for: no coordination, no operators. */
  function Payload(d: Directory, destination: string): Request {
    Request(ToRoute(d.hops), TrimSpace(destination), d.amountSat, [], [], [])
  }

  /** `ToForgerPayload`. */
  method ToForgerPayload(d: Directory, destination: string) returns (r: Option<Request>)
    ensures r.Some? <==> Listed(d) && !Blank(destination)
    ensures r.Some? ==> r.value == Payload(d, destination)
  {
    hide TrimSpace, Listed;
    var listed := LoadPeers(d);
    if listed.None? || Blank(destination) {
      return None;
    }
    var route := [];
    for i := 0 to |d.hops|
      invariant |route| == i
      invariant forall k :: 0 <= k < i ==> route[k] == ToRouteHop(d.hops[k])
    {
      route := route + [RouteHop(TrimSpace(d.hops[i].tor), d.hops[i].feeMinSat, TrimSpace(d.hops[i].swapKey), [])];
    }
    assert route == ToRoute(d.hops);
    r := Some(Request(route, TrimSpace(destination), d.amountSat, [], [], []));
  }

  /** `ToPathfindRoute`: the hops of the route file and their fee sum, which has not wrapped. */
  method ToRouteFile(d: Directory) returns (r: Option<(seq<RouteHop>, uint64)>)
    ensures r.Some? <==> Listed(d)
    ensures r.Some? ==> r.value == (ToRoute(d.hops), Fees(ToRoute(d.hops)))
  {
    hide TrimSpace, Published, Fees;
    var listed := LoadPeers(d);
    if listed.None? {
      return None;
    }
    ghost var route := ToRoute(d.hops);
    var hops: seq<RouteHop>, feeSum: uint64 := [], 0;
    NoFees();
    for i := 0 to |d.hops|
      invariant hops == route[..i] && feeSum == Fees(route[..i])
    {
      FeesStep(route, i);
      FeesGrow(route, i + 1);
      hops := hops + [ToRouteHop(d.hops[i])];
      feeSum := (feeSum + d.hops[i].feeMinSat) % U64;
    }
    assert route[..|route|] == route;
    r := Some((hops, feeSum));
  }

  /**
   * A directory that is accepted yields a request that the route validators accept: the directory's
   * amount and hops, the caller's destination; its 64-bit fee sum has not wrapped and leaves a positive
   * amount for the destination.
   */
  lemma PayloadAccepted(d: Directory, destination: string)
    requires Listed(d) && !Blank(destination)
    ensures Acceptable(Payload(d, destination))
    ensures Fees(Payload(d, destination).route) % U64 == Fees(Payload(d, destination).route) < d.amountSat
    ensures var p := Payload(d, destination);
            && p.amount == d.amountSat && p.destination == TrimSpace(destination) && |p.route| == |d.hops|
            && forall i :: 0 <= i < |d.hops| ==>
                 && p.route[i].tor == TrimSpace(d.hops[i].tor) && p.route[i].swapKey == TrimSpace(d.hops[i].swapKey)
                 && p.route[i].feeMinSat == d.hops[i].feeMinSat
  {
    hide TrimSpace, Published, Fees;
    var route := Payload(d, destination).route;
    TrimTwice(destination);
    NoCoordination(Payload(d, destination));
    forall i | 0 <= i < |route| ensures HasTor(route[i]) && GoodKey(route[i]) {
      PublishedHop(d.hops[i]);
    }
    assert UniformKeys(route);
    hide *;
  }

  lemma PublishedHop(h: DirectoryHop)
    requires Published(h)
    ensures HasTor(ToRouteHop(h)) && GoodKey(ToRouteHop(h))
  {
    hide TrimSpace;
    TrimTwice(h.tor);
    TrimTwice(h.swapKey);
  }

  lemma NoCoordination(req: Request)
    requires req.epochId == req.accuser == req.swapId == []
    ensures Coordinated(req)
  {
    assert Blank([]);
  }

  /** `mlNodesFromRequest`: the peers a submitted route pins. */
  function RoutePeers(route: seq<RouteHop>, raw: seq<seq<byte>>): seq<Peer>
    requires |raw| == |route|
  {
    seq(|route|, i requires 0 <= i < |route| => Peer(TrimSpace(route[i].tor), HexEncode(raw[i])))
  }

  /**
   * Whatever key map is configured, the peers pinned by submitting the directory's own payload are
   * the peers that the mix nodes load from the directory.
   */
  lemma RouteOfDirectory(
    d: Directory, destination: string, keys: map<string, string>, raw: seq<seq<byte>>, peers: seq<Peer>)
    requires Listed(d)
    requires |raw| == |d.hops| == |peers|
    requires forall i :: 0 <= i < |d.hops| ==> peers[i] == PeerOf(d.hops[i])
    requires forall i :: 0 <= i < |raw| ==> HexEncode(raw[i]) == KeyTextOf(Payload(d, destination).route[i], keys)
    ensures RoutePeers(Payload(d, destination).route, raw) == peers
  {
    hide TrimSpace, NormalizeTor;
    forall i | 0 <= i < |peers| ensures RoutePeers(Payload(d, destination).route, raw)[i] == peers[i] {
      assert Published(d.hops[i]);
      TrimTwice(d.hops[i].tor);
      TrimTwice(d.hops[i].swapKey);
    }
  }
}

/** The sidecar's edit of a request before it passes it on. */
module SwapTranslator {
  import opened Text
  import opened MlnRoute

  predicate HasScheme(s: string) {
    exists i :: 0 <= i < |s| - 2 && s[i] == ':' && s[i + 1] == '/' && s[i + 2] == '/'
  }

  /** `NormalizeMixEndpoint`. */
  function NormalizeEndpoint(raw: string): string {
    var s := TrimSpace(raw);
    if s == [] || HasScheme(s) then s else "http://" + s
  }

  function NormalizeHop(h: RouteHop): RouteHop { h.(tor := NormalizeEndpoint(h.tor)) }

  function NormalizeRoute(route: seq<RouteHop>): (r: seq<RouteHop>)
    ensures |r| == |route| && forall i :: 0 <= i < |route| ==> r[i] == NormalizeHop(route[i])
  {
    seq(|route|, i requires 0 <= i < |route| => NormalizeHop(route[i]))
  }

  /** `NormalizeSwapRequestHops`, in place. */
  method NormalizeHops(route: array<RouteHop>)
    modifies route
    ensures route[..] == NormalizeRoute(old(route[..]))
  {
    hide NormalizeEndpoint;
    for i := 0 to route.Length
      invariant forall k :: 0 <= k < i ==> route[k] == NormalizeHop(old(route[k]))
      invariant forall k :: i <= k < route.Length ==> route[k] == old(route[k])
    {
      route[i] := route[i].(tor := NormalizeEndpoint(route[i].tor));
    }
  }

  /** An endpoint is normalised once and for all, and stays blank or not. */
  lemma NormalizeTwice(raw: string)
    ensures NormalizeEndpoint(NormalizeEndpoint(raw)) == NormalizeEndpoint(raw)
    ensures Blank(NormalizeEndpoint(raw)) <==> Blank(raw)
    ensures var s := TrimSpace(raw);
            var scheme := exists i :: 0 <= i < |s| - 2 && s[i] == ':' && s[i + 1] == '/' && s[i + 2] == '/';
            NormalizeEndpoint(raw) == if s == [] || scheme then s else "http://" + s
  {
    var s := TrimSpace(raw);
    TrimTwice(raw);
    if s != [] && !HasScheme(s) {
      var t := "http://" + s;
      assert t[|t| - 1] == s[|s| - 1];
      assert !IsSpace(t[0]);
      assert TrimSpace(t) == t;
      assert t[4] == ':' && t[5] == '/' && t[6] == '/';
      assert HasScheme(t);
    }
  }

  lemma {:induction false} NormalizeKeepsFees(route: seq<RouteHop>)
    ensures Fees(NormalizeRoute(route)) == Fees(route)
    decreases |route|
  {
    hide NormalizeEndpoint;
    if route != [] {
      var front := route[..|route| - 1];
      NormalizeKeepsFees(front);
      assert NormalizeRoute(route)[..|route| - 1] == NormalizeRoute(front);
    }
  }

  /** Normalising the hops changes nothing about whether the request is accepted. */
  lemma NormalizeKeepsAcceptance(req: Request)
    ensures Acceptable(req.(route := NormalizeRoute(req.route))) <==> Acceptable(req)
  {
    var route := NormalizeRoute(req.route);
    NormalizeKeepsFees(req.route);
    hide NormalizeEndpoint, TrimSpace, Fees, HasOperator, EpochOf, AddressOf;
    forall i | 0 <= i < |route|
      ensures HasTor(route[i]) == HasTor(req.route[i]) && NoKey(route[i]) == NoKey(req.route[i])
      ensures GoodKey(route[i]) == GoodKey(req.route[i]) && HasOperator(route[i]) == HasOperator(req.route[i])
    {
      NormalizeTwice(req.route[i].tor);
      SameOperator(req.route[i]);
    }
    hide HasTor, NoKey, GoodKey;
    assert route == NormalizeRoute(req.route);
    SameRules(req, route);
  }

  lemma SameOperator(h: RouteHop)
    ensures HasOperator(NormalizeHop(h)) == HasOperator(h)
  {
    hide NormalizeEndpoint, AddressOf;
  }

  lemma SameRules(req: Request, route: seq<RouteHop>)
    requires |route| == |req.route| && Fees(route) == Fees(req.route)
    requires forall i :: 0 <= i < |route| ==>
      HasTor(route[i]) == HasTor(req.route[i]) && NoKey(route[i]) == NoKey(req.route[i])
      && GoodKey(route[i]) == GoodKey(req.route[i]) && HasOperator(route[i]) == HasOperator(req.route[i])
    ensures Acceptable(req.(route := route)) <==> Acceptable(req)
  {
    hide HasTor, NoKey, GoodKey, HasOperator, Fees, ParseDecimal, AddressOf, Blank;
    var other := req.(route := route);
    assert UniformKeys(route) <==> UniformKeys(req.route);
    assert Coordinated(other) <==> Coordinated(req);
  }
}
