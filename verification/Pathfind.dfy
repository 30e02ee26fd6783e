/** Finding makers: the latest advertisement of every operator, checked against the registry. */
module Scout {
  import opened Wrappers
  import opened Bytes
  import opened Mweb
  import opened Text
  import opened MlnRoute
  import opened Receipts

  /** A signed, well-formed advertisement for this deployment, or something else. */
  datatype Event = Event(
    operator: Address, createdAt: int, tor: string, feeMinSat: uint64, swapKey: string, usable: bool)

  datatype Maker = Maker(operator: Address, tor: string, stake: string, feeMinSat: uint64, swapKey: string)

  /** The registry's verdict on an advertisement: the stake, if the maker is registered. */
  const RegisteredStake: Event -> Option<nat>

  /** `strings.ToLower(operator.Hex())`. */
  function OperatorKey(a: Address): string { ToLower(AddressText(a)) }

  lemma OperatorKeyInjective(a: Address, b: Address)
    ensures OperatorKey(a) == OperatorKey(b) <==> a == b
  {
    hide AddressOf, ToLower, AddressText;
    ChecksumParses(a);
    ChecksumParses(b);
  }

  /** `e` is the advertisement kept for its operator: none is newer, and none as new arrived earlier. */
  ghost predicate KeptFrom(events: seq<Event>, e: Event) {
    exists i: nat :: KeptAt(events, i) && events[i] == e
  }

  ghost predicate KeptAt(events: seq<Event>, i: nat) {
    && i < |events| && events[i].usable
    && forall j :: 0 <= j < |events| && events[j].usable && events[j].operator == events[i].operator ==>
         if j < i then events[j].createdAt < events[i].createdAt else events[j].createdAt <= events[i].createdAt
  }

  /** The map of the latest advertisements: every operator that advertised, with the one to keep. */
  ghost predicate Latest(events: seq<Event>, latest: map<string, Event>) {
    && (forall k :: k in latest ==> KeptFrom(events, latest[k]) && k == OperatorKey(latest[k].operator))
    && (forall i :: 0 <= i < |events| && events[i].usable ==> OperatorKey(events[i].operator) in latest)
  }

  /** The loop over arrivals. */
  method CollectLatest(events: seq<Event>) returns (latest: map<string, Event>)
    ensures Latest(events, latest)
  {
    hide Latest, OperatorKey;
    latest := map[];
    NothingLatest();
    for i := 0 to |events|
      invariant Latest(events[..i], latest)
    {
      var e := events[i];
      assert events[..i + 1] == events[..i] + [e];
      if !e.usable {
        Unusable(events[..i], e, latest);
        continue;
      }
      var key := OperatorKey(e.operator);
      Arrives(events[..i], e, latest);
      if key !in latest || e.createdAt > latest[key].createdAt {
        latest := latest[key := e];
      }
    }
    assert events[..|events|] == events;
  }

  lemma NothingLatest()
    ensures Latest([], map[])
  {
  }

  lemma KeptWithOther(events: seq<Event>, e: Event, kept: Event)
    requires KeptFrom(events, kept)
    requires e.usable && e.operator == kept.operator ==> e.createdAt <= kept.createdAt
    ensures KeptFrom(events + [e], kept)
  {
    var i: nat :| KeptAt(events, i) && events[i] == kept;
    assert KeptAt(events + [e], i);
  }

  lemma Unusable(events: seq<Event>, e: Event, latest: map<string, Event>)
    requires Latest(events, latest) && !e.usable
    ensures Latest(events + [e], latest)
  {
    hide KeptFrom;
    forall k | k in latest ensures KeptFrom(events + [e], latest[k]) {
      KeptWithOther(events, e, latest[k]);
    }
  }

  /** A usable advertisement replaces an older one of the same operator, and nothing else. */
  lemma Arrives(events: seq<Event>, e: Event, latest: map<string, Event>)
    requires Latest(events, latest) && e.usable
    ensures var key := OperatorKey(e.operator);
            Latest(events + [e],
                   if key !in latest || e.createdAt > latest[key].createdAt then latest[key := e] else latest)
  {
    hide KeptFrom, OperatorKey;
    var key := OperatorKey(e.operator);
    forall k | k in latest && (k != key || e.createdAt <= latest[key].createdAt)
      ensures KeptFrom(events + [e], latest[k]) {
      OperatorKeyInjective(e.operator, latest[k].operator);
      KeptWithOther(events, e, latest[k]);
    }
    if key !in latest || e.createdAt > latest[key].createdAt {
      NewestIsKept(events, e, latest);
    }
  }

  lemma NewestIsKept(events: seq<Event>, e: Event, latest: map<string, Event>)
    requires Latest(events, latest) && e.usable
    requires var key := OperatorKey(e.operator);
             key !in latest || e.createdAt > latest[key].createdAt
    ensures KeptFrom(events + [e], e)
  {
    hide OperatorKey;
    var key := OperatorKey(e.operator);
    forall j | 0 <= j < |events| && events[j].usable && events[j].operator == e.operator
      ensures events[j].createdAt < e.createdAt
    {
      var i: nat :| KeptAt(events, i) && events[i] == latest[key];
      OperatorKeyInjective(e.operator, latest[key].operator);
    }
    assert KeptAt(events + [e], |events|);
  }

  /** `VerifiedMaker`: what an advertisement and the registry say of a maker. */
  function MakerOf(e: Event, stake: nat): Maker {
    Maker(e.operator, TrimSpace(e.tor), Decimal(stake), e.feeMinSat, TrimSpace(e.swapKey))
  }

  /** A listed maker has its advertisement's operator, address, fee and key, and the registry's stake. */
  lemma MakerCarries(e: Event, stake: nat)
    ensures var m := MakerOf(e, stake);
            && m.operator == e.operator && m.tor == TrimSpace(e.tor)
            && m.feeMinSat == e.feeMinSat && m.swapKey == TrimSpace(e.swapKey)
            && ParseDecimal(m.stake) == Some(stake)
  {
    hide TrimSpace;
    DecimalReadsBack(stake);
  }

  ghost predicate DistinctOperators(makers: seq<Maker>) {
    forall i, j :: 0 <= i < j < |makers| ==> makers[i].operator != makers[j].operator
  }

  /** A verified maker stands for the kept advertisement of a registered operator. */
  ghost predicate Stands(events: seq<Event>, m: Maker) {
    exists e :: KeptFrom(events, e) && RegisteredStake(e).Some? && m == MakerOf(e, RegisteredStake(e).value)
  }

  /**
   * `Run`: what it lists are exactly the registered operators' latest advertisements, one maker for
   * each operator, whatever the order in which the map of the latest ones is visited.
   */
  method Run(events: seq<Event>) returns (verified: seq<Maker>)
    ensures DistinctOperators(verified)
    ensures forall i :: 0 <= i < |verified| ==> Stands(events, verified[i])
    ensures forall e :: KeptFrom(events, e) && RegisteredStake(e).Some? ==>
      MakerOf(e, RegisteredStake(e).value) in verified
  {
    hide OperatorKey, KeptFrom, MakerOf, Latest;
    var latest := CollectLatest(events);
    verified := [];
    var todo := latest.Keys;
    while todo != {}
      invariant todo <= latest.Keys
      invariant DistinctOperators(verified)
      invariant forall i :: 0 <= i < |verified| ==> Stands(events, verified[i])
      invariant forall i :: 0 <= i < |verified| ==> OperatorKey(verified[i].operator) !in todo
      invariant forall k :: k in latest && k !in todo && RegisteredStake(latest[k]).Some? ==>
        MakerOf(latest[k], RegisteredStake(latest[k]).value) in verified
    {
      var k :| k in todo;
      IsKept(events, latest, k);
      todo := todo - {k};
      var stake := RegisteredStake(latest[k]);
      if stake.Some? {
        var m := MakerOf(latest[k], stake.value);
        MakerCarries(latest[k], stake.value);
        assert Stands(events, m);
        verified := verified + [m];
      }
    }
    forall e | KeptFrom(events, e) && RegisteredStake(e).Some?
      ensures MakerOf(e, RegisteredStake(e).value) in verified {
      KeptIsListed(events, latest, e);
    }
  }

  lemma IsKept(events: seq<Event>, latest: map<string, Event>, k: string)
    requires Latest(events, latest) && k in latest
    ensures KeptFrom(events, latest[k]) && k == OperatorKey(latest[k].operator)
  {
    hide OperatorKey;
  }

  lemma KeptIsListed(events: seq<Event>, latest: map<string, Event>, e: Event)
    requires Latest(events, latest) && KeptFrom(events, e)
    ensures OperatorKey(e.operator) in latest && latest[OperatorKey(e.operator)] == e
  {
    hide OperatorKey;
    var i: nat :| KeptAt(events, i) && events[i] == e;
    var key := OperatorKey(e.operator);
    assert OperatorKey(events[i].operator) in latest;
    var j: nat :| KeptAt(events, j) && events[j] == latest[key];
    OperatorKeyInjective(e.operator, latest[key].operator);
    assert i == j;
  }
}

/** Choosing a route: an exhaustive search over ordered triples with a two-level tie-break. */
module Pathfind {
  import opened Wrappers
  import opened Bytes
  import opened Mweb
  import opened Text
  import opened MlnRoute
  import opened Scout

  datatype Triple = Triple(i: nat, j: nat, k: nat)

  datatype Route = Route(first: Maker, second: Maker, third: Maker, feeSumSat: uint64)

  /** `strToStake`: what is not a number counts as zero. */
  function StrToStake(s: string): int {
    match ParseDecimal(s)
    case Some(x) => x
    case None => 0
  }

  /** A stake written in decimal is read back. */
  lemma StakeReadsBack(n: nat)
    ensures StrToStake(Decimal(n)) == n
  {
    DecimalReadsBack(n);
  }

  function WithTor(makers: seq<Maker>): (r: seq<Maker>)
    ensures |r| <= |makers| && forall m :: m in r <==> m in makers && !Blank(m.tor)
  {
    if makers == [] then []
    else
      var last := makers[|makers| - 1];
      assert makers == makers[..|makers| - 1] + [last];
      WithTor(makers[..|makers| - 1]) + if Blank(last.tor) then [] else [last]
  }

  /** `filterMakersWithTor`. */
  method FilterMakersWithTor(makers: seq<Maker>) returns (out: seq<Maker>)
    ensures out == WithTor(makers)
  {
    hide TrimSpace;
    out := [];
    for i := 0 to |makers|
      invariant out == WithTor(makers[..i])
    {
      assert makers[..i + 1][..i] == makers[..i];
      if !Blank(makers[i].tor) {
        out := out + [makers[i]];
      }
    }
    assert makers[..|makers|] == makers;
  }

  /** The makers that can be dialled still have distinct operators. */
  lemma {:induction false} WithTorDistinct(makers: seq<Maker>)
    requires DistinctOperators(makers)
    ensures DistinctOperators(WithTor(makers))
  {
    hide Blank;
    if makers != [] {
      var front := makers[..|makers| - 1];
      WithTorDistinct(front);
      forall m | m in WithTor(front) ensures m.operator != makers[|makers| - 1].operator {
        assert m in front;
      }
    }
  }

  const MaxFee: int := 0x7fff_ffff_ffff_ffff

  /** Three different makers. */
  predicate Proper(n: nat, t: Triple) {
    t.i < n && t.j < n && t.k < n && t.i != t.j && t.i != t.k && t.j != t.k
  }

  /** The sum of the three fees without bound, and as the source adds it. */
  function TrueFee(makers: seq<Maker>, t: Triple): nat
    requires Proper(|makers|, t)
  {
    makers[t.i].feeMinSat + makers[t.j].feeMinSat + makers[t.k].feeMinSat
  }

  function Fee(makers: seq<Maker>, t: Triple): uint64
    requires Proper(|makers|, t)
  {
    ((makers[t.i].feeMinSat + makers[t.j].feeMinSat) % U64 + makers[t.k].feeMinSat) % U64
  }

  lemma FeeWraps(makers: seq<Maker>, t: Triple)
    requires Proper(|makers|, t)
    ensures Fee(makers, t) == TrueFee(makers, t) % U64
  {
  }

  function Stake(makers: seq<Maker>, t: Triple): int
    requires Proper(|makers|, t)
  {
    StrToStake(makers[t.i].stake) + StrToStake(makers[t.j].stake) + StrToStake(makers[t.k].stake)
  }

  /** Of makers that the scout lists the stakes are those in the registry, added up. */
  lemma StakesAdd(makers: seq<Maker>, t: Triple, events: seq<Event>, stakes: seq<nat>)
    requires Proper(|makers|, t) && |events| == |stakes| == |makers|
    requires forall x :: 0 <= x < |makers| ==> makers[x] == MakerOf(events[x], stakes[x])
    ensures Stake(makers, t) == stakes[t.i] + stakes[t.j] + stakes[t.k]
  {
    hide TrimSpace;
    StakeReadsBack(stakes[t.i]);
    StakeReadsBack(stakes[t.j]);
    StakeReadsBack(stakes[t.k]);
  }

  /** The triples searched: all proper ones, or those with a given maker in the middle. */
  predicate Allowed(n: nat, middle: Option<nat>, t: Triple) {
    Proper(n, t) && (middle.Some? ==> t.j == middle.value)
  }

  /** Among the allowed triples none is cheaper, and none as cheap has a larger stake. */
  ghost predicate Best(makers: seq<Maker>, middle: Option<nat>, t: Triple) {
    && Allowed(|makers|, middle, t)
    && Fee(makers, t) <= MaxFee
    && (forall u :: Allowed(|makers|, middle, u) ==> Fee(makers, t) <= Fee(makers, u))
    && forall u :: Allowed(|makers|, middle, u) && Fee(makers, u) == Fee(makers, t) ==>
      Stake(makers, u) <= Stake(makers, t)
  }

  /** Every allowed sum of three fees is too large for the search. */
  ghost predicate AllTooDear(makers: seq<Maker>, middle: Option<nat>) {
    forall t :: Allowed(|makers|, middle, t) ==> Fee(makers, t) > MaxFee
  }

  /** The route of some best triple. */
  ghost predicate BestRoute(makers: seq<Maker>, middle: Option<nat>, r: Route) {
    exists t :: Best(makers, middle, t) && r == RouteOf(makers, t)
  }

  function RouteOf(makers: seq<Maker>, t: Triple): Route
    requires Proper(|makers|, t)
  {
    Route(makers[t.i], makers[t.j], makers[t.k], Fee(makers, t))
  }

  /** The search so far: the cheapest fee among the triples seen, and those that have it. */
  ghost predicate Searched(makers: seq<Maker>, seen: set<Triple>, best: uint64, candidates: seq<Triple>) {
    && best <= MaxFee
    && (forall t :: t in seen ==> Proper(|makers|, t) && best <= Fee(makers, t))
    && (forall t :: t in candidates ==> t in seen && Fee(makers, t) == best)
    && (forall t :: t in seen && Fee(makers, t) == best ==> t in candidates)
    && (candidates == [] ==> best == MaxFee)
  }

  lemma SearchMore(makers: seq<Maker>, seen: set<Triple>, best: uint64, candidates: seq<Triple>, t: Triple)
    requires Searched(makers, seen, best, candidates) && Proper(|makers|, t)
    ensures Fee(makers, t) < best ==> Searched(makers, seen + {t}, Fee(makers, t), [t])
    ensures Fee(makers, t) == best ==> Searched(makers, seen + {t}, best, candidates + [t])
    ensures Fee(makers, t) > best ==> Searched(makers, seen + {t}, best, candidates)
  {
    hide Fee;
  }

  /** `tier` lists the best triples, and the route is that of the one drawn. */
  ghost predicate Drawn(makers: seq<Maker>, middle: Option<nat>, tier: seq<Triple>, draw: nat, r: Route) {
    && tier != []
    && (forall t :: t in tier <==> Best(makers, middle, t))
    && var t := tier[draw % |tier|];
       Best(makers, middle, t) && r == RouteOf(makers, t)
  }

  /** The order of the three loops. */
  predicate Before(t: Triple, i: nat, j: nat, k: nat) {
    t.i < i || (t.i == i && (t.j < j || (t.j == j && t.k < k)))
  }

  ghost predicate SeenBefore(n: nat, seen: set<Triple>, i: nat, j: nat, k: nat) {
    forall t :: t in seen <==> Proper(n, t) && Before(t, i, j, k)
  }

  /** The tie-break: of the candidates, those with the largest stake. */
  method Tier(makers: seq<Maker>, candidates: seq<Triple>) returns (tier: seq<Triple>)
    requires candidates != [] && forall t :: t in candidates ==> Proper(|makers|, t)
    ensures tier != []
    ensures forall t :: t in tier <==>
      t in candidates && forall u :: u in candidates ==> Stake(makers, u) <= Stake(makers, t)
  {
    hide Stake;
    var maxStake := Stake(makers, candidates[0]);
    ghost var top := candidates[0];
    for c := 1 to |candidates|
      invariant top in candidates && Stake(makers, top) == maxStake
      invariant forall d :: 0 <= d < c ==> Stake(makers, candidates[d]) <= maxStake
    {
      if Stake(makers, candidates[c]) > maxStake {
        maxStake := Stake(makers, candidates[c]);
        top := candidates[c];
      }
    }
    tier := [];
    for c := 0 to |candidates|
      invariant forall t :: t in tier <==> t in candidates[..c] && Stake(makers, t) == maxStake
    {
      assert candidates[..c + 1] == candidates[..c] + [candidates[c]];
      if Stake(makers, candidates[c]) == maxStake {
        tier := tier + [candidates[c]];
      }
    }
    assert candidates[..|candidates|] == candidates;
    assert top in tier;
  }

  /** From the search and the tie-break to the best triples. */
  lemma TierIsBest(
    makers: seq<Maker>, middle: Option<nat>, seen: set<Triple>, best: uint64, candidates: seq<Triple>,
    tier: seq<Triple>)
    requires Searched(makers, seen, best, candidates) && candidates != []
    requires forall t :: t in seen <==> Allowed(|makers|, middle, t)
    requires forall t :: t in tier <==>
      t in candidates && forall u :: u in candidates ==> Stake(makers, u) <= Stake(makers, t)
    ensures forall t :: t in tier <==> Best(makers, middle, t)
  {
    hide Fee, Stake;
    assert candidates[0] in candidates;
  }

  /**
   * `PickRoute`: none if no three different makers that can be dialled have fees that add up, in 64
   * bits, to less than 2^63; else the route of a best triple, and every best triple for some draw.
   */
  method PickRoute(all: seq<Maker>, draw: nat) returns (r: Option<Route>, ghost tier: seq<Triple>)
    ensures r.None? <==> AllTooDear(WithTor(all), None)
    ensures r.Some? ==> BestRoute(WithTor(all), None, r.value)
    ensures r.Some? ==> Drawn(WithTor(all), None, tier, draw, r.value)
  {
    hide Fee, Stake, WithTor, Searched, Best;
    var makers := FilterMakersWithTor(all);
    tier := [];
    if |makers| < 3 {
      return None, [];
    }
    var n := |makers|;
    var bestFee: uint64, candidates := MaxFee, [];
    ghost var seen: set<Triple> := {};
    NothingSearched(makers);
    for i := 0 to n
      invariant SeenBefore(n, seen, i, 0, 0) && Searched(makers, seen, bestFee, candidates)
    {
      for j := 0 to n
        invariant SeenBefore(n, seen, i, j, 0) && Searched(makers, seen, bestFee, candidates)
      {
        if j == i {
          NoneThere(n, seen, i, j);
          continue;
        }
        for k := 0 to n
          invariant SeenBefore(n, seen, i, j, k) && Searched(makers, seen, bestFee, candidates)
        {
          if k == i || k == j {
            SkipOne(n, seen, i, j, k);
            continue;
          }
          var t := Triple(i, j, k);
          var fee := Fee(makers, t);
          SearchMore(makers, seen, bestFee, candidates, t);
          SeeOne(n, seen, i, j, k);
          seen := seen + {t};
          if fee < bestFee {
            bestFee := fee;
            candidates := [];
          }
          if fee != bestFee {
            continue;
          }
          assert [] + [t] == [t];
          candidates := candidates + [t];
        }
        RowDone(n, seen, i, j);
      }
      PlaneDone(n, seen, i);
    }
    AllSeen(n, seen);
    SearchDone(makers, None, seen, bestFee, candidates);
    if |candidates| == 0 {
      return None, [];
    }
    var found := Tier(makers, candidates);
    TierIsBest(makers, None, seen, bestFee, candidates, found);
    tier := found;
    assert found[draw % |found|] in tier;
    r := Some(RouteOf(makers, found[draw % |found|]));
  }

  lemma NothingSearched(makers: seq<Maker>)
    ensures Searched(makers, {}, MaxFee, [])
    ensures SeenBefore(|makers|, {}, 0, 0, 0)
  {
  }

  lemma NoneThere(n: nat, seen: set<Triple>, i: nat, j: nat)
    requires SeenBefore(n, seen, i, j, 0) && j == i
    ensures SeenBefore(n, seen, i, j + 1, 0)
  {
  }

  lemma SkipOne(n: nat, seen: set<Triple>, i: nat, j: nat, k: nat)
    requires SeenBefore(n, seen, i, j, k) && (k == i || k == j)
    ensures SeenBefore(n, seen, i, j, k + 1)
  {
  }

  lemma SeeOne(n: nat, seen: set<Triple>, i: nat, j: nat, k: nat)
    requires SeenBefore(n, seen, i, j, k) && Proper(n, Triple(i, j, k))
    ensures SeenBefore(n, seen + {Triple(i, j, k)}, i, j, k + 1)
  {
  }

  lemma RowDone(n: nat, seen: set<Triple>, i: nat, j: nat)
    requires SeenBefore(n, seen, i, j, n)
    ensures SeenBefore(n, seen, i, j + 1, 0)
  {
  }

  lemma PlaneDone(n: nat, seen: set<Triple>, i: nat)
    requires SeenBefore(n, seen, i, n, 0)
    ensures SeenBefore(n, seen, i + 1, 0, 0)
  {
  }

  lemma AllSeen(n: nat, seen: set<Triple>)
    requires SeenBefore(n, seen, n, 0, 0)
    ensures forall t :: t in seen <==> Allowed(n, None, t)
  {
  }

  /** Nothing was found exactly if every sum is too large. */
  lemma SearchDone(makers: seq<Maker>, middle: Option<nat>, seen: set<Triple>, best: uint64, candidates: seq<Triple>)
    requires Searched(makers, seen, best, candidates)
    requires forall t :: t in seen <==> Allowed(|makers|, middle, t)
    ensures forall t :: t in candidates ==> Proper(|makers|, t)
    ensures candidates == [] <==> AllTooDear(makers, middle)
  {
    hide Fee;
    if candidates != [] {
      assert candidates[0] in seen;
    }
  }

  /** The place of the first maker of an operator, or the number of makers. */
  function FirstOf(makers: seq<Maker>, self: Address): (i: nat)
    ensures i <= |makers|
  {
    if makers == [] || makers[0].operator == self then 0 else 1 + FirstOf(makers[1..], self)
  }

  /**
   * `PickRouteSelfMiddle`: the same with the first dialled maker of the given operator in the middle;
   * none if there is no such maker.
   */
  method PickRouteSelfMiddle(all: seq<Maker>, self: Address, draw: nat)
    returns (r: Option<Route>, ghost tier: seq<Triple>)
    ensures var makers := WithTor(all);
            var me := FirstOf(makers, self);
            r.None? <==> me == |makers| || AllTooDear(makers, Some(me))
    ensures r.Some? ==> BestRoute(WithTor(all), Some(FirstOf(WithTor(all), self)), r.value)
    ensures r.Some? ==> r.value.second.operator == self
    ensures r.Some? ==> Drawn(WithTor(all), Some(FirstOf(WithTor(all), self)), tier, draw, r.value)
  {
    hide Fee, Stake, WithTor, Searched, Best;
    var makers := FilterMakersWithTor(all);
    tier := [];
    if |makers| < 3 {
      return None, [];
    }
    var selfIdx := IndexOf(makers, self);
    if selfIdx == |makers| {
      return None, [];
    }
    var n := |makers|;
    var bestFee: uint64, candidates := MaxFee, [];
    ghost var seen: set<Triple> := {};
    NothingSearched(makers);
    for i := 0 to n
      invariant SeenMiddle(n, selfIdx, seen, i, 0) && Searched(makers, seen, bestFee, candidates)
    {
      if i == selfIdx {
        continue;
      }
      for k := 0 to n
        invariant SeenMiddle(n, selfIdx, seen, i, k) && Searched(makers, seen, bestFee, candidates)
      {
        if k == selfIdx || i == k {
          continue;
        }
        var t := Triple(i, selfIdx, k);
        var fee := Fee(makers, t);
        SearchMore(makers, seen, bestFee, candidates, t);
        seen := seen + {t};
        if fee < bestFee {
          bestFee := fee;
          candidates := [];
        }
        if fee != bestFee {
          continue;
        }
        assert [] + [t] == [t];
        candidates := candidates + [t];
      }
    }
    MiddleSeen(n, selfIdx, seen);
    SearchDone(makers, Some(selfIdx), seen, bestFee, candidates);
    if |candidates| == 0 {
      return None, [];
    }
    var found := Tier(makers, candidates);
    TierIsBest(makers, Some(selfIdx), seen, bestFee, candidates, found);
    tier := found;
    assert found[draw % |found|] in tier;
    InTheMiddle(makers, selfIdx, found[draw % |found|]);
    r := Some(RouteOf(makers, found[draw % |found|]));
  }

  ghost predicate SeenMiddle(n: nat, self: nat, seen: set<Triple>, i: nat, k: nat) {
    forall t :: t in seen <==> Proper(n, t) && t.j == self && (t.i < i || (t.i == i && t.k < k))
  }

  lemma MiddleSeen(n: nat, self: nat, seen: set<Triple>)
    requires SeenMiddle(n, self, seen, n, 0)
    ensures forall t :: t in seen <==> Allowed(n, Some(self), t)
  {
  }

  lemma InTheMiddle(makers: seq<Maker>, self: nat, t: Triple)
    requires self < |makers| && Best(makers, Some(self), t)
    ensures RouteOf(makers, t).second == makers[self]
  {
    hide Fee, Stake;
  }

  /** The loop for the first maker of an operator. */
  method IndexOf(makers: seq<Maker>, self: Address) returns (i: nat)
    ensures i == FirstOf(makers, self)
    ensures i < |makers| ==> makers[i].operator == self
  {
    i := 0;
    while i < |makers| && makers[i].operator != self
      invariant i <= |makers| && FirstOf(makers, self) == i + FirstOf(makers[i..], self)
    {
      assert makers[i..][1..] == makers[i + 1..];
      i := i + 1;
    }
  }

  /* What the choice is worth */

  /** Among the allowed triples none truly costs less, and none that costs as much has a larger stake. */
  ghost predicate TrulyBest(makers: seq<Maker>, middle: Option<nat>, c: Triple) {
    && Allowed(|makers|, middle, c)
    && (forall u :: Allowed(|makers|, middle, u) ==> TrueFee(makers, c) <= TrueFee(makers, u))
    && forall u :: Allowed(|makers|, middle, u) && TrueFee(makers, u) == TrueFee(makers, c) ==>
         Stake(makers, u) <= Stake(makers, c)
  }

  /** The search finds something, and whatever it may choose is truly best and reported at its true sum. */
  ghost predicate ChoosesTruly(makers: seq<Maker>, middle: Option<nat>) {
    && (exists t :: Best(makers, middle, t))
    && forall t :: Best(makers, middle, t) ==> TrulyBest(makers, middle, t) && Fee(makers, t) == TrueFee(makers, t)
  }

  /** No sum that wraps comes out below the cost `fee`, nor at it with as much stake. */
  ghost predicate NoneWrapsBelow(makers: seq<Maker>, middle: Option<nat>, fee: nat, stake: int) {
    forall u :: Allowed(|makers|, middle, u) && TrueFee(makers, u) >= U64 ==>
      Fee(makers, u) > fee || (Fee(makers, u) == fee && Stake(makers, u) < stake)
  }

  lemma Unwrapped(makers: seq<Maker>, t: Triple)
    requires Proper(|makers|, t)
    ensures TrueFee(makers, t) < U64 <==> Fee(makers, t) == TrueFee(makers, t)
  {
    FeeWraps(makers, t);
  }

  /**
   * When the choice is right, exactly: let `c` be a truly best triple. The search finds a route, and
   * every route it may choose is truly best and reported at its true sum, if and only if the sum of `c`
   * is below 2^63 and no sum that wraps comes out below it, or at it with as much stake.
   */
  lemma ChoosesTrulyExactly(makers: seq<Maker>, middle: Option<nat>, c: Triple)
    requires TrulyBest(makers, middle, c)
    ensures ChoosesTruly(makers, middle) <==>
      TrueFee(makers, c) <= MaxFee && NoneWrapsBelow(makers, middle, TrueFee(makers, c), Stake(makers, c))
  {
    hide Fee, TrueFee, Stake;
    forall u | Allowed(|makers|, middle, u)
      ensures TrueFee(makers, u) < U64 <==> Fee(makers, u) == TrueFee(makers, u) {
      Unwrapped(makers, u);
    }
    if TrueFee(makers, c) <= MaxFee && NoneWrapsBelow(makers, middle, TrueFee(makers, c), Stake(makers, c)) {
      assert Best(makers, middle, c);
    }
    if ChoosesTruly(makers, middle) {
      var t :| Best(makers, middle, t);
      assert TrueFee(makers, c) == TrueFee(makers, t) == Fee(makers, t) && Stake(makers, c) == Stake(makers, t);
      forall u | Allowed(|makers|, middle, u) && TrueFee(makers, u) >= U64
        ensures Fee(makers, u) > Fee(makers, t)
          || (Fee(makers, u) == Fee(makers, t) && Stake(makers, u) < Stake(makers, t))
      {
        assert !Best(makers, middle, u);
      }
    }
  }

  /** Where there is an allowed triple there is a truly best one. */
  lemma TrulyBestExists(makers: seq<Maker>, middle: Option<nat>, t: Triple) returns (c: Triple)
    requires Allowed(|makers|, middle, t)
    ensures TrulyBest(makers, middle, c)
  {
    hide TrueFee, Stake;
    var n := |makers|;
    var all := set i, j, k | 0 <= i < n && 0 <= j < n && 0 <= k < n :: Triple(i, j, k);
    var allowed := set u | u in all && Allowed(n, middle, u);
    forall u | Allowed(n, middle, u) ensures u in allowed {
      assert Triple(u.i, u.j, u.k) in all;
    }
    c := CheapestOf(makers, allowed);
  }

  lemma {:induction false} CheapestOf(makers: seq<Maker>, s: set<Triple>) returns (c: Triple)
    requires s != {} && forall u :: u in s ==> Proper(|makers|, u)
    ensures c in s
    ensures forall u :: u in s ==> TrueFee(makers, c) <= TrueFee(makers, u)
    ensures forall u :: u in s && TrueFee(makers, u) == TrueFee(makers, c) ==> Stake(makers, u) <= Stake(makers, c)
  {
    hide TrueFee, Stake;
    c :| c in s;
    var rest := s - {c};
    assert s == rest + {c};
    if rest != {} {
      var d := CheapestOf(makers, rest);
      if TrueFee(makers, d) < TrueFee(makers, c)
         || (TrueFee(makers, d) == TrueFee(makers, c) && Stake(makers, d) > Stake(makers, c)) {
        c := d;
      }
    }
  }

  /* The cheapest makers */

  predicate In(t: Triple, m: nat) { m == t.i || m == t.j || m == t.k }

  /** No maker left out is cheaper than one chosen; a maker fixed in the middle was not chosen. */
  ghost predicate Cheapest(makers: seq<Maker>, middle: Option<nat>, t: Triple)
    requires Proper(|makers|, t)
  {
    forall m: nat, x: nat :: m < |makers| && x < |makers| && !In(t, m) && In(t, x) && middle != Some(x) ==>
      makers[x].feeMinSat <= makers[m].feeMinSat
  }

  /** A sum is truly least if and only if no maker left out is cheaper than one chosen. */
  lemma CheapestExactly(makers: seq<Maker>, middle: Option<nat>, t: Triple)
    requires Allowed(|makers|, middle, t)
    ensures (forall u :: Allowed(|makers|, middle, u) ==> TrueFee(makers, t) <= TrueFee(makers, u))
       <==> Cheapest(makers, middle, t)
  {
    if forall u :: Allowed(|makers|, middle, u) ==> TrueFee(makers, t) <= TrueFee(makers, u) {
      forall m: nat, x: nat | m < |makers| && x < |makers| && !In(t, m) && In(t, x) && middle != Some(x)
        ensures makers[x].feeMinSat <= makers[m].feeMinSat
      {
        var u := if x == t.i then t.(i := m) else if x == t.j then t.(j := m) else t.(k := m);
        assert Allowed(|makers|, middle, u);
      }
    }
    if Cheapest(makers, middle, t) {
      forall u | Allowed(|makers|, middle, u) ensures TrueFee(makers, t) <= TrueFee(makers, u) {
        Exchange(makers, middle, t, u);
      }
    }
  }

  /** Three of the cheapest cost no more than any other three. */
  lemma Exchange(makers: seq<Maker>, middle: Option<nat>, t: Triple, u: Triple)
    requires Allowed(|makers|, middle, t) && Allowed(|makers|, middle, u) && Cheapest(makers, middle, t)
    ensures TrueFee(makers, t) <= TrueFee(makers, u)
  {
    if middle.None? {
      Undercuts(makers, middle, t, u.i);
      Undercuts(makers, middle, t, u.j);
      Undercuts(makers, middle, t, u.k);
    } else {
      Undercuts(makers, middle, t, u.i);
      Undercuts(makers, middle, t, u.k);
    }
    hide Cheapest;
  }

  lemma Undercuts(makers: seq<Maker>, middle: Option<nat>, t: Triple, m: nat)
    requires Allowed(|makers|, middle, t) && Cheapest(makers, middle, t) && m < |makers|
    ensures !In(t, m) ==> makers[t.i].feeMinSat <= makers[m].feeMinSat && makers[t.k].feeMinSat <= makers[m].feeMinSat
    ensures !In(t, m) && middle.None? ==> makers[t.j].feeMinSat <= makers[m].feeMinSat
  {
  }

  /** The sums searched fit 63 bits. */
  ghost predicate Moderate(makers: seq<Maker>, middle: Option<nat>) {
    forall t :: Allowed(|makers|, middle, t) ==> TrueFee(makers, t) <= MaxFee
  }

  /**
   * The route chosen, with or without a maker fixed in the middle, when all sums searched are below
   * 2^63: the reported fee is the true sum, no maker left out is cheaper than one chosen, no other
   * three as cheap have more stake. Over makers with distinct operators, as `Scout` lists them, the
   * three operators differ whatever the fees are.
   */
  lemma RouteIsOptimal(makers: seq<Maker>, middle: Option<nat>, t: Triple)
    requires Best(makers, middle, t)
    ensures Moderate(makers, middle) ==>
      RouteOf(makers, t).feeSumSat == TrueFee(makers, t) && TrulyBest(makers, middle, t)
        && Cheapest(makers, middle, t)
    ensures var r := RouteOf(makers, t);
            r.first == makers[t.i] && r.second == makers[t.j] && r.third == makers[t.k]
    ensures var r := RouteOf(makers, t);
            DistinctOperators(makers) ==>
              r.first.operator != r.second.operator && r.second.operator != r.third.operator
              && r.first.operator != r.third.operator
  {
    hide Fee, TrueFee, Stake, Cheapest;
    if Moderate(makers, middle) {
      var c := TrulyBestExists(makers, middle, t);
      ChoosesTrulyExactly(makers, middle, c);
      assert TrulyBest(makers, middle, t);
      CheapestExactly(makers, middle, t);
    }
  }

  /**
   * An input for which the choice is wrong: of these four makers the first two charge 2^63 each, so
   * that with the third the sum wraps to 1. The search can only choose these three, in some order, and
   * reports a fee of 1, although they cost 2^64 + 1 and leaving one of the first two out costs less.
   */
  lemma WrapMisleads(makers: seq<Maker>)
    requires |makers| == 4
    requires makers[0].feeMinSat == makers[1].feeMinSat == MaxFee + 1
    requires makers[2].feeMinSat == 1 && makers[3].feeMinSat == 2
    ensures Best(makers, None, Triple(0, 1, 2))
    ensures forall t :: Best(makers, None, t) ==>
      In(t, 0) && In(t, 1) && In(t, 2) && Fee(makers, t) == 1 && TrueFee(makers, t) == U64 + 1
        && !TrulyBest(makers, None, t)
  {
    hide Stake;
    var first, other := Triple(0, 1, 2), Triple(0, 2, 3);
    assert Allowed(4, None, other) && TrueFee(makers, other) < U64;
    forall t | Allowed(4, None, t)
      ensures Fee(makers, t) == (if In(t, 0) && In(t, 1) then TrueFee(makers, t) - U64 else TrueFee(makers, t))
      ensures In(t, 3) ==> Fee(makers, t) >= 2
      ensures !In(t, 3) ==>
        In(t, 0) && In(t, 1) && In(t, 2) && Fee(makers, t) == 1 && Stake(makers, t) == Stake(makers, first)
    {
      FeeWraps(makers, t);
      SameThree(makers, t, first);
    }
  }

  lemma SameThree(makers: seq<Maker>, t: Triple, u: Triple)
    requires Proper(|makers|, t) && Proper(|makers|, u)
    ensures In(u, t.i) && In(u, t.j) && In(u, t.k) ==> Stake(makers, t) == Stake(makers, u)
  {
  }
}
