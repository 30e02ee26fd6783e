/** The swap service as it runs: a map of onions changed in place, loops over maps and streams. */
module SwapMachine {
  import opened Wrappers
  import opened Bytes
  import opened Curve
  import opened Sums
  import opened Mweb
  import opened OnionCodec
  import opened SwapSpec
  import opened Balance
  import opened Denomination
  import opened Queue

  /** The persisted queue: two buckets keyed by the commitment bytes of the onion's input. */
  class OnionDb {
    var onions: map<seq<byte>, Onion>
    var amounts: map<seq<byte>, nat>

    /** Every onion is stored under the commitment of its input. */
    ghost predicate Valid()
      reads this
    {
      forall k :: k in onions ==> onions[k].input.commitment == k
    }

    /** What the two buckets hold. */
    function Contents(): Buckets
      reads this
    {
      Buckets(onions, amounts)
    }

    /** Each of these runs in a database transaction that may fail and then changes nothing. */
    method SaveOnion(o: Onion, works: bool) returns (ok: bool)
      modifies this
      ensures ok == works && Contents() == if works then PutOnion(old(Contents()), o) else old(Contents())
      ensures onions == if works then old(onions)[o.input.commitment := o] else old(onions)
      ensures amounts == old(amounts)
    {
      if works {
        onions := onions[o.input.commitment := o];
      }
      ok := works;
    }

    /** An amount of zero is not recorded, and that is no failure. */
    method SaveOnionAmount(o: Onion, amount: uint64, works: bool) returns (ok: bool)
      modifies this
      ensures ok == (works || amount == 0)
      ensures Contents() == if works && amount > 0 then PutAmount(old(Contents()), o, amount) else old(Contents())
      ensures onions == old(onions)
      ensures amounts == if works && amount > 0 then old(amounts)[o.input.commitment := amount] else old(amounts)
    {
      if amount == 0 {
        return true;
      }
      if works {
        amounts := amounts[o.input.commitment := amount];
      }
      ok := works;
    }

    method DeleteOnionAmount(o: Onion) returns (ok: bool)
      modifies this
      ensures Contents() == if ok then DropAmount(old(Contents()), o) else old(Contents())
      ensures onions == old(onions) && amounts == if ok then old(amounts) - {o.input.commitment} else old(amounts)
    {
      ok := *;
      if ok {
        amounts := amounts - {o.input.commitment};
      }
    }

    /** The amount first, then the onion; either transaction may fail. */
    method DeleteOnion(o: Onion) returns (ok: bool)
      modifies this
      ensures DeletedBy(old(Contents()), o, Contents(), ok)
      ensures onions == if ok then old(onions) - {o.input.commitment} else old(onions)
      ensures amounts == old(amounts) - {o.input.commitment} || (!ok && amounts == old(amounts))
    {
      ok := DeleteOnionAmount(o);
      if !ok {
        return;
      }
      ok := *;
      if ok {
        onions := onions - {o.input.commitment};
      }
    }
  }

  /** The bucket keys of the onions that a node holds. */
  function BucketKeys(held: Held): set<seq<byte>> {
    set c | c in held :: held[c].onion.input.commitment
  }

  /** Insert into a list that is sorted by output hash. */
  function Insert(o: MwebOutput, sorted: seq<MwebOutput>): seq<MwebOutput> {
    if sorted == [] || OutputHash(o) <= OutputHash(sorted[0]) then [o] + sorted
    else [sorted[0]] + Insert(o, sorted[1..])
  }

  lemma {:induction false} InsertKeeps(o: MwebOutput, sorted: seq<MwebOutput>)
    ensures multiset(Insert(o, sorted)) == multiset(sorted) + multiset{o}
  {
    if sorted == [] || OutputHash(o) <= OutputHash(sorted[0]) {
    } else {
      InsertKeeps(o, sorted[1..]);
      assert sorted == [sorted[0]] + sorted[1..];
    }
  }

  lemma {:induction false} InsertSorts(o: MwebOutput, sorted: seq<MwebOutput>)
    requires SortedByHash(sorted)
    ensures SortedByHash(Insert(o, sorted))
    ensures |Insert(o, sorted)| > 0
    ensures var least := OutputHash(Insert(o, sorted)[0]);
            least == OutputHash(o) || (sorted != [] && least == OutputHash(sorted[0]))
  {
    if sorted == [] || OutputHash(o) <= OutputHash(sorted[0]) {
    } else {
      InsertSorts(o, sorted[1..]);
      var rest := Insert(o, sorted[1..]);
      assert Insert(o, sorted) == [sorted[0]] + rest;
      assert OutputHash(sorted[0]) <= OutputHash(rest[0]);
    }
  }

  /** `slices.SortFunc` by output hash. */
  method SortByHash(outputs: seq<MwebOutput>) returns (sorted: seq<MwebOutput>)
    ensures SortedByHash(sorted) && multiset(sorted) == multiset(outputs)
  {
    sorted := [];
    for i := 0 to |outputs|
      invariant SortedByHash(sorted) && multiset(sorted) == multiset(outputs[..i])
    {
      InsertSorts(outputs[i], sorted);
      InsertKeeps(outputs[i], sorted);
      sorted := Insert(outputs[i], sorted);
      assert outputs[..i + 1] == outputs[..i] + [outputs[i]];
    }
    assert outputs[..|outputs|] == outputs;
  }

  /** `slices.Collect(maps.Keys(m))`: the keys in some order. */
  method Collect(keys: set<Point>) returns (order: seq<Point>)
    ensures Visits(order, keys)
  {
    var todo := keys;
    order := [];
    while todo != {}
      invariant todo <= keys && Visits(order, keys - todo)
    {
      var c :| c in todo;
      VisitsMore(order, keys - todo, c);
      assert keys - (todo - {c}) == keys - todo + {c};
      todo := todo - {c};
      order := order + [c];
    }
    assert keys - todo == keys;
  }

  /** `slices.SortedFunc(maps.Keys(m))`: the keys in the order of their encodings. */
  method CollectAscending(keys: set<Point>) returns (order: seq<Point>)
    ensures Ascending(order, keys)
  {
    var todo := keys;
    order := [];
    while todo != {}
      invariant todo <= keys && Ascending(order, keys - todo)
      invariant forall i, d :: 0 <= i < |order| && d in todo ==> order[i] < d
    {
      var least := Least(todo);
      VisitsMore(order, keys - todo, least);
      assert keys - (todo - {least}) == keys - todo + {least};
      todo := todo - {least};
      order := order + [least];
    }
    assert keys - todo == keys;
  }

  method Least(s: set<Point>) returns (least: Point)
    requires s != {}
    ensures least in s && forall c :: c in s ==> least <= c
  {
    least :| least in s;
    var todo := s - {least};
    while todo != {}
      invariant todo <= s && least in s
      invariant forall c :: c in s && c !in todo ==> least <= c
    {
      var c :| c in todo;
      todo := todo - {c};
      if c < least {
        least := c;
      }
    }
  }

  /** The coordination data of the current route. */
  datatype RouteMeta = RouteMeta(epochId: string, accuser: string, swapId: string, operators: seq<seq<byte>>)

  const NoMeta: RouteMeta := RouteMeta("", "", "", [Zeros(20), Zeros(20), Zeros(20)])

  datatype Admission = Queued | NotNodeZero | InvalidOnion | NotSaved | AmountNotSaved

  /** `saveOnionAmount`. */
  function Record(b: Buckets, o: Onion, amount: uint64): Buckets {
    if amount > 0 then PutAmount(b, o, amount) else b
  }

  /** Storing an onion and taking it back because its amount could not be recorded. */
  function RolledBack(b: Buckets, o: Onion): Buckets {
    DropOnion(DropAmount(PutOnion(b, o), o), o)
  }

  /** The rollback restores the queue exactly when it knew nothing of the coin before. */
  lemma RollbackIsExact(b: Buckets, o: Onion)
    ensures RolledBack(b, o) == b <==> KeyOf(o) !in b.onions && KeyOf(o) !in b.amounts
  {
    var r := RolledBack(b, o);
    assert r.onions == b.onions - {KeyOf(o)} && r.amounts == b.amounts - {KeyOf(o)};
    if KeyOf(o) !in b.onions && KeyOf(o) !in b.amounts {
      assert r.onions == b.onions && r.amounts == b.amounts;
    } else {
      assert KeyOf(o) !in r.onions && KeyOf(o) !in r.amounts;
    }
  }

  /** What a route submission may leave, by what came of it; the rollback's own failure is not reported. */
  ghost predicate Admitted(b: Buckets, o: Onion, amount: uint64, r: Admission, b': Buckets) {
    match r
    case Queued => b' == Record(PutOnion(b, o), o, amount)
    case AmountNotSaved =>
      && amount > 0
      && (DeletedBy(PutOnion(b, o), o, b', true) || DeletedBy(PutOnion(b, o), o, b', false))
    case _ => b' == b
  }

  /**
   * A submission whose amount could not be recorded and whose rollback worked leaves the queue as it was
   * exactly if the queue knew nothing of the coin. Else what it knew is gone.
   */
  lemma RejectedRestores(b: Buckets, o: Onion, amount: uint64, b': Buckets)
    requires Admitted(b, o, amount, AmountNotSaved, b') && DeletedBy(PutOnion(b, o), o, b', true)
    ensures b' == b <==> KeyOf(o) !in b.onions && KeyOf(o) !in b.amounts
    ensures KeyOf(o) !in b'.onions && KeyOf(o) !in b'.amounts
  {
    RollbackIsExact(b, o);
    assert b' == RolledBack(b, o);
  }

  /** The input: a coin that is queued already is lost when its second submission is taken back. */
  lemma RollbackLoses(o: Onion, amount: uint64)
    requires amount > 0
    ensures var b, b' := Buckets(map[KeyOf(o) := o], map[]), Buckets(map[], map[]);
            && Admitted(b, o, amount, AmountNotSaved, b') && DeletedBy(PutOnion(b, o), o, b', true)
            && KeyOf(o) in b.onions && b' != b
  {
    var b, b' := Buckets(map[KeyOf(o) := o], map[]), Buckets(map[], map[]);
    assert DropAmount(PutOnion(b, o), o).amounts == map[];
    assert RolledBack(b, o) == b';
    assert KeyOf(o) in b.onions.Keys;
  }

  /** Whatever a route submission comes to, recorded amounts keep belonging to stored onions. */
  lemma AdmissionKeepsConsistent(b: Buckets, o: Onion, amount: uint64, r: Admission, b': Buckets)
    requires b.Consistent() && Admitted(b, o, amount, r, b')
    ensures b'.Consistent()
  {
  }

  /** A submission is a run of the lock holder. */
  lemma AdmissionIsHolder(b: Buckets, o: Onion, amount: uint64, r: Admission, b': Buckets)
    requires Admitted(b, o, amount, r, b')
    ensures ByHolder(b, b')
  {
    hide ByHolder, DeletedBy;
    match r
    case Queued =>
      RecordingIsHolder(b, o, amount);
    case AmountNotSaved =>
      RollbackIsHolder(b, o, amount, b', DeletedBy(PutOnion(b, o), o, b', true));
    case _ =>
      StaysIsHolder(b);
  }

  class SwapService {
    const serverKey: PrivKey
    /** Peeling with the server key. */
    const peel: Peeler
    const db: OnionDb
    var nodes: seq<string>
    var mlnPeers: seq<string>
    var nodeIndex: nat
    var onions: Held
    var submitRemote: bool
    var meta: RouteMeta

    constructor (serverKey: PrivKey, db: OnionDb)
      ensures this.serverKey == serverKey && this.db == db
      ensures forall o :: peel(o) == Peeling(serverKey, o)
      ensures onions == map[] && nodes == [] && mlnPeers == [] && nodeIndex == 0 && !submitRemote && meta == NoMeta
    {
      this.serverKey := serverKey;
      this.peel := (o: Onion) => Peeling(serverKey, o);
      this.db := db;
      onions, nodes, mlnPeers, nodeIndex, submitRemote, meta := map[], [], [], 0, false, NoMeta;
    }

    /** The active topology: the pinned route if there is one, else the configured nodes. */
    function Peers(): seq<string>
      reads `nodes, `mlnPeers
    {
      if |mlnPeers| == 3 then mlnPeers else nodes
    }

    function Me(): Node
      reads `nodes, `mlnPeers, `nodeIndex
    {
      Node(peel, ShareAmong(|Peers()|), nodeIndex, |Peers()|)
    }

    /** The peers in use are the pinned route of three, or the configured nodes if no route is pinned. */
    lemma ActiveTopology()
      ensures |mlnPeers| == 3 ==> Peers() == mlnPeers && Me().count == 3 && Me().share == ShareAmong(3)
      ensures |mlnPeers| != 3 ==> Peers() == nodes && Me().count == |nodes| && Me().share == ShareAmong(|nodes|)
    {
    }

    /** The peer that a call passes its message to: the next in use on the way forward, else the previous. */
    ghost predicate Calls(outcome: Outcome, called: Option<string>)
      reads `nodes, `mlnPeers, `nodeIndex
    {
      match outcome
      case SendForward(_) => nodeIndex + 1 < |Peers()| && called == Some(Peers()[nodeIndex + 1])
      case SendBackward(_) => 0 < nodeIndex <= |Peers()| && called == Some(Peers()[nodeIndex - 1])
      case _ => called == None
    }

    /** Admission under the lock: node 0 only, valid onions only. */
    method AcceptOnion(o: Onion, coins: map<seq<byte>, MwebOutput>, works: bool) returns (r: Admission)
      modifies db
      ensures r == if nodeIndex != 0 then NotNodeZero else if !ValidOnion(coins, o) then InvalidOnion
                   else if !works then NotSaved else Queued
      ensures db.Contents() == if r == Queued then PutOnion(old(db.Contents()), o) else old(db.Contents())
    {
      hide ValidOnion;
      if nodeIndex != 0 {
        return NotNodeZero;
      }
      if !ValidOnion(coins, o) {
        return InvalidOnion;
      }
      var saved := db.SaveOnion(o, works);
      r := if saved then Queued else NotSaved;
    }

    /** The call `swap_swap`: no amount is recorded; a pinned route of three stays pinned. */
    method Swap(o: Onion, coins: map<seq<byte>, MwebOutput>, works: bool) returns (r: Admission)
      modifies `mlnPeers, `meta, db
      ensures mlnPeers == (if |old(mlnPeers)| == 3 then old(mlnPeers) else []) && meta == NoMeta
      ensures if |old(mlnPeers)| == 3 then Peers() == old(mlnPeers) && Me().count == 3 else Peers() == nodes
      ensures Me() == old(Me())
      ensures r == Queued <==> nodeIndex == 0 && ValidOnion(coins, o) && works
      ensures db.Contents() == if r == Queued then PutOnion(old(db.Contents()), o) else old(db.Contents())
      ensures r == Queued ==> o.input.commitment in db.onions && db.onions[o.input.commitment] == o
      ensures ByHolder(old(db.Contents()), db.Contents())
    {
      hide ValidOnion, ByHolder;
      StaysIsHolder(db.Contents());
      StoringIsHolder(db.Contents(), o);
      if |mlnPeers| != 3 {
        mlnPeers := [];
      }
      meta := NoMeta;
      r := AcceptOnion(o, coins, works);
    }

    /**
     * A route submission: the peers are pinned even if the onion is then refused; the onion stays only
     * if its amount could be recorded.
     */
    method AcceptRoute(
      o: Onion, peers: seq<string>, amount: uint64, coins: map<seq<byte>, MwebOutput>, works: bool, records: bool)
      returns (r: Admission)
      modifies `mlnPeers, db
      ensures mlnPeers == if |peers| == 3 then peers else old(mlnPeers)
      ensures |peers| == 3 ==> Peers() == peers && Me() == Node(peel, ShareAmong(3), nodeIndex, 3)
      ensures |peers| != 3 ==> Peers() == old(Peers()) && Me() == old(Me())
      ensures r == if nodeIndex != 0 then NotNodeZero else if !ValidOnion(coins, o) then InvalidOnion
                   else if !works then NotSaved else if amount > 0 && !records then AmountNotSaved else Queued
      ensures Admitted(old(db.Contents()), o, amount, r, db.Contents())
      ensures r == Queued ==> db.onions == old(db.onions)[o.input.commitment := o]
      ensures r == Queued ==>
        db.amounts == if amount > 0 then old(db.amounts)[o.input.commitment := amount] else old(db.amounts)
      ensures ByHolder(old(db.Contents()), db.Contents())
    {
      hide ValidOnion, ByHolder;
      if |peers| == 3 {
        mlnPeers := peers;
      }
      r := AcceptOnion(o, coins, works);
      if r == Queued {
        var recorded := db.SaveOnionAmount(o, amount, records);
        if !recorded {
          var _ := db.DeleteOnion(o);
          r := AmountNotSaved;
        }
      }
      AdmissionIsHolder(old(db.Contents()), o, amount, r, db.Contents());
    }

    /** The loop that the developers' switch adds to a batch: delete whatever is stored. */
    method ClearPending() returns (ok: bool)
      requires db.Valid()
      modifies db
      ensures Removed(old(db.Contents()), old(db.onions).Keys, ok, db.Contents())
    {
      ghost var before := db.Contents();
      var listed := db.onions;
      var todo := listed.Keys;
      NothingWithout(before);
      assert listed.Keys - todo == {};
      while todo != {}
        invariant todo <= listed.Keys
        invariant Without(before, listed.Keys - todo, listed.Keys - todo, db.Contents())
      {
        var k :| k in todo;
        ghost var now := db.Contents();
        ok := db.DeleteOnion(listed[k]);
        OneMoreRemoved(before, listed.Keys - todo, now, listed[k], db.Contents(), ok);
        assert listed.Keys - (todo - {k}) == listed.Keys - todo + {k};
        if !ok {
          return;
        }
        todo := todo - {k};
      }
      assert listed.Keys - todo == listed.Keys;
      ok := true;
    }

    /**
     * The call `mweb_runBatch`, alone: the daily swap; if that returned no error, the developers'
     * clearing if it is on. `ok` says that the call returns no error.
     */
    method RunBatch(coins: map<seq<byte>, MwebOutput>, senderKey: Bytes32, accepted: bool, devClear: bool)
      returns (outcome: Outcome, ok: bool, ghost loaded: Held, ghost order: seq<seq<byte>>)
      requires db.Valid()
      modifies `onions, db
      ensures submitRemote || nodeIndex != 0 ==> outcome == Ignored && onions == old(onions)
      ensures !submitRemote && nodeIndex == 0 && outcome != Failed(StorageFailed) ==>
        SwapOutcome(Me(), ValidOnes(coins, old(db.onions)), old(db.onions) == map[], old(db.amounts), order, loaded,
                    onions, outcome)
      ensures Refused(outcome) ==> !ok
      ensures outcome.Panicked? || outcome.Failed?
              || (outcome.Finalized? && !(outcome.accepted && outcome.cleaned)) ==>
        !ok && BatchLeaves(old(db.Contents()), coins, outcome, db.Contents())
      ensures Refused(outcome) || !devClear ==>
        BatchLeaves(old(db.Contents()), coins, outcome, db.Contents()) && ByHolder(old(db.Contents()), db.Contents())
      ensures !Refused(outcome) && devClear ==>
        exists mid :: BatchLeaves(old(db.Contents()), coins, outcome, mid) && ByHolder(old(db.Contents()), mid)
          && Removed(mid, mid.onions.Keys, ok, db.Contents()) && ByClearing(mid, db.Contents())
      ensures ok && devClear ==> db.onions == map[]
    {
      hide ValidOnion, SwapOutcome, BucketKeys, Me, ValidOnes, BatchLeft, Removed, ByHolder, ByClearing;
      var called;
      outcome, called, loaded, order := PerformSwap(coins, senderKey, accepted);
      ghost var before, mid := old(db.Contents()), db.Contents();
      BatchIsHolder(before, coins, submitRemote || nodeIndex != 0, outcome, Spent(outcome), mid);
      ok := !Refused(outcome);
      if !ok || !devClear {
        return;
      }
      BatchKeepsKeys(before, coins, submitRemote || nodeIndex != 0, outcome, Spent(outcome), mid);
      ok := ClearPending();
      RemovalIsClearing(mid, ok, db.Contents());
      if ok {
        DoneMeansAll(mid, mid.onions.Keys, db.Contents());
      }
    }

    /** The body of the peel loop for one onion: the checks in their order, or a reason to drop it. */
    method PeelOne(commit: Point, o: OnionEtc, taken: set<Point>)
      returns (passed: Option<(Point, OnionEtc, Option<MwebOutput>)>)
      requires Me().Placed()
      ensures passed.Some? <==> Passes(Me(), commit, o) && Next(peel, commit, o) !in taken
      ensures passed.Some? ==>
        passed.value == (Next(peel, commit, o), NextOnion(peel, o), HopOf(peel, o).output)
    {
      var peeled := peel(o.onion);
      if peeled.Err? {
        return None;
      }
      var hop := peeled.value.hop;
      var commit2 := Sub(Add(commit, NewCommitment(hop.kernelBlind, 0)), NewCommitment(0, hop.fee));
      var stealthSum := Add(o.stealthSum, PubKey(hop.stealthBlind));
      if commit2 in taken {
        return None;
      }
      var lastNode := nodeIndex == |Peers()| - 1;
      if lastNode != hop.output.Some? {
        return None;
      }
      if hop.output.Some? && !OutputAccepted(hop.output.value, commit2, stealthSum) {
        return None;
      }
      passed := Some((commit2, OnionEtc(peeled.value.onion, stealthSum), hop.output));
    }

    /** Peel every held onion once, in some order, dropping those that fail or collide. */
    method PeelOnions() returns (out: Held, outputs: seq<MwebOutput>, ghost order: seq<Point>)
      requires Me().Placed()
      modifies this`onions
      ensures PeelOutcome(Me(), old(onions), onions, out, outputs, order)
    {
      hide PeeledSoFar, CoveredSoFar, Rest, PeelOutcome, Passes, Next, NextOnion, HopOf, Peels;
      ghost var all, me, done := onions, Me(), map[];
      out, outputs, order := map[], [], [];
      var todo := onions.Keys;
      PeelStarts(me, all);
      while todo != {}
        invariant Me() == me && me.peel == peel && me.Placed()
        invariant todo <= all.Keys && done.Keys !! todo && onions == Rest(all, done, todo)
        invariant PeeledSoFar(me, all, done, out, outputs, order)
        invariant CoveredSoFar(me, all, todo, out)
      {
        var commit :| commit in todo;
        RestHas(all, done, todo, commit);
        var passed := PeelOne(commit, onions[commit], out.Keys);
        if passed.None? {
          DropOne(me, all, done, todo, out, commit);
          onions := onions - {commit};
        } else {
          KeepOne(me, all, done, todo, out, outputs, order, commit);
          outputs := outputs + if passed.value.2.Some? then [passed.value.2.value] else [];
          done := done[commit := all[commit]];
          out := out[passed.value.0 := passed.value.1];
          order := order + [commit];
        }
        todo := todo - {commit};
      }
      PeelEnds(me, all, done, out, outputs, order);
    }

    /** Build the transaction from the onions held; if the network takes it, they leave the queue. */
    method Finalize(outputs: seq<MwebOutput>, kernels: seq<MwebKernel>, accepted: bool) returns (outcome: Outcome)
      requires KeyedByInput(onions)
      modifies db
      ensures outcome.Finalized? && outcome.tx.outputs == outputs && outcome.tx.kernels == kernels
      ensures Spends(onions, outcome.tx.inputs) && outcome.accepted == accepted && (outcome.cleaned ==> accepted)
      ensures QueueLeft(old(db.Contents()), outcome)
      ensures outcome.cleaned ==> forall c :: c in onions ==>
        onions[c].onion.input.commitment !in db.onions && onions[c].onion.input.commitment !in db.amounts
      ensures !accepted ==> db.Contents() == old(db.Contents())
    {
      hide Spends, Removed;
      var inputs := Inputs();
      var cleaned := false;
      NothingRemoved(db.Contents());
      if accepted {
        ghost var before := db.Contents();
        cleaned := DeleteSpent();
        if cleaned {
          DoneMeansAll(before, BucketKeys(onions), db.Contents());
        }
      }
      outcome := Finalized(MwebTx(inputs, outputs, kernels), accepted, cleaned);
    }

    method Inputs() returns (inputs: seq<MwebInput>)
      requires KeyedByInput(onions)
      ensures Spends(onions, inputs)
    {
      hide InputFromOnion;
      var order := Collect(onions.Keys);
      VisitsElements(order, onions.Keys);
      inputs := [];
      for i := 0 to |order|
        invariant |inputs| == i
        invariant forall k :: 0 <= k < i ==> InputFromOnion(onions[order[k]].onion) == Some(inputs[k])
      {
        inputs := inputs + [InputFromOnion(onions[order[i]].onion).value];
      }
      assert SpendsInOrder(onions, inputs, order);
    }

    /** The loop after the broadcast: it ends at the first deletion that fails. */
    method DeleteSpent() returns (ok: bool)
      modifies db
      ensures Removed(old(db.Contents()), BucketKeys(onions), ok, db.Contents())
    {
      ghost var before := db.Contents();
      var todo := onions.Keys;
      NothingWithout(before);
      assert BucketKeysOf(onions, onions.Keys - todo) == {};
      while todo != {}
        invariant todo <= onions.Keys
        invariant var gone := BucketKeysOf(onions, onions.Keys - todo);
                  Without(before, gone, gone, db.Contents())
      {
        var c :| c in todo;
        ghost var now, gone := db.Contents(), BucketKeysOf(onions, onions.Keys - todo);
        ok := db.DeleteOnion(onions[c].onion);
        OneMoreRemoved(before, gone, now, onions[c].onion, db.Contents(), ok);
        assert BucketKeysOf(onions, onions.Keys - (todo - {c})) == gone + {KeyOf(onions[c].onion)};
        assert gone + {KeyOf(onions[c].onion)} <= BucketKeys(onions);
        if !ok {
          return;
        }
        todo := todo - {c};
      }
      assert BucketKeysOf(onions, onions.Keys - todo) == BucketKeys(onions);
      ok := true;
    }

    /** The first loop of `backward`: blinds modulo the group order, fees in 64 bits. */
    method SumHops() returns (kernelBlind: Scalar, stealthBlind: Scalar, nodeFee: nat)
      requires AllPeel(peel, onions)
      ensures HopsSummed(peel, onions, onions.Keys, kernelBlind, stealthBlind, nodeFee)
    {
      hide HopsSummed;
      kernelBlind, stealthBlind, nodeFee := ZeroScalar(), ZeroScalar(), 0;
      var todo := onions.Keys;
      NothingSummed(peel, onions);
      assert onions.Keys - todo == {};
      while todo != {}
        invariant todo <= onions.Keys
        invariant HopsSummed(peel, onions, onions.Keys - todo, kernelBlind, stealthBlind, nodeFee)
      {
        var c :| c in todo;
        var hop := HopOf(peel, onions[c]);
        OneMoreSummed(peel, onions, onions.Keys - todo, c, kernelBlind, stealthBlind, nodeFee);
        assert onions.Keys - (todo - {c}) == onions.Keys - todo + {c};
        kernelBlind := AddScalar(kernelBlind, hop.kernelBlind);
        stealthBlind := AddScalar(stealthBlind, hop.stealthBlind);
        nodeFee := (nodeFee + hop.fee) % U64;
        todo := todo - {c};
      }
      assert onions.Keys - todo == onions.Keys;
    }

    /** Append this node's output and kernel to what was collected. */
    method AppendOwn(
      outputs: seq<MwebOutput>, kernels: seq<MwebKernel>, kernelBlind: Scalar, stealthBlind: Scalar,
      value: nat, fee: nat, senderKey: Bytes32) returns (outputs': seq<MwebOutput>, kernels': seq<MwebKernel>)
      requires SameBlind(kernelBlind, SumSet(onions.Keys, HopVec(peel, onions)).g)
      requires SameBlind(stealthBlind, SumSet(onions.Keys, StealthBlindVec(peel, onions)).g)
      ensures Leaves(peel, onions, value, fee, senderKey, outputs, kernels, outputs', kernels')
      ensures forall i, j :: 0 <= i < j < |outputs'| ==> OutputHash(outputs'[i]) <= OutputHash(outputs'[j])
      ensures CreateOutput(value, feeAddress, senderKey).0 in outputs'
    {
      hide SameBlind, HopVec, StealthBlindVec, SumSet;
      var (output, blind) := OwnOutput(value, senderKey);
      var kernel := CreateKernel(
        AddScalar(kernelBlind, BlindSwitch(blind, value)), AddScalar(stealthBlind, senderKey), fee);
      outputs' := SortByHash(outputs + [output]);
      assert output in multiset(outputs + [output]);
      assert output in multiset(outputs');
      kernels' := kernels + [kernel];
      OwnKernelReduced(
        kernelBlind, SumSet(onions.Keys, HopVec(peel, onions)).g,
        stealthBlind, SumSet(onions.Keys, StealthBlindVec(peel, onions)).g, value, fee, senderKey);
    }

    /** Hand on to the previous node if it can be reached, or finish at node 0. */
    method Deliver(outputs: seq<MwebOutput>, kernels: seq<MwebKernel>, accepted: bool)
      returns (outcome: Outcome, called: Option<string>)
      requires Me().Placed() && (nodeIndex == 0 ==> KeyedByInput(onions))
      modifies db
      ensures Delivers(Me(), onions, outputs, kernels, outcome)
      ensures outcome.Finalized? || outcome.SendBackward? || outcome == Failed(Unreachable)
      ensures QueueLeft(old(db.Contents()), outcome)
      ensures outcome.Finalized? ==> outcome.accepted == accepted && (outcome.cleaned ==> accepted)
      ensures Calls(outcome, called)
    {
      hide KeyedByInput, BucketKeys, Spends, Removed;
      NothingRemoved(db.Contents());
      called := None;
      if nodeIndex == 0 {
        outcome := Finalize(outputs, kernels, accepted);
      } else {
        var commits := Collect(onions.Keys);
        var reached := *;
        if !reached {
          return Failed(Unreachable), None;
        }
        called := Some(Peers()[nodeIndex - 1]);
        outcome := SendBackward(BackwardMessage(commits, outputs, kernels));
      }
    }

    /** Add this node's output and kernel and deliver, unless its onions pay less than its fee. */
    method BackwardBatch(outputs: seq<MwebOutput>, kernels: seq<MwebKernel>, senderKey: Bytes32, accepted: bool)
      returns (outcome: Outcome, called: Option<string>)
      requires Me().Placed() && AllPeel(peel, onions) && (nodeIndex == 0 ==> KeyedByInput(onions))
      modifies db
      ensures BackwardOutcome(Me(), onions, outputs, kernels, outcome)
      ensures QueueLeft(old(db.Contents()), outcome)
      ensures outcome.Finalized? ==> outcome.accepted == accepted && (outcome.cleaned ==> accepted)
      ensures Calls(outcome, called)
    {
      hide KeyedByInput, BucketKeys, AllPeel, SumSet, HopVec, StealthBlindVec, SameBlind, Leaves, Delivers, Settled,
        Removed;
      NothingRemoved(db.Contents());
      var kernelBlind, stealthBlind, nodeFee := SumHops();
      var fee := Me().share(|outputs| + nodeIndex + 1);
      if nodeFee < fee {
        RunsShort(Me(), onions, nodeFee, fee, outputs, kernels);
        return Failed(InsufficientHopFees), None;
      }
      var value := nodeFee - fee;
      var outputs', kernels' := AppendOwn(outputs, kernels, kernelBlind, stealthBlind, value, fee, senderKey);
      outcome, called := Deliver(outputs', kernels', accepted);
      SettlesNow(Me(), onions, nodeFee, fee, value, senderKey, outputs, kernels, outputs', kernels', outcome);
    }

    /** Sum the outputs of a backward message while reading them. */
    method ReadOutputs(items: Message)
      returns (outputs: seq<MwebOutput>, commitSum: Option<Point>, stealthSum: Option<Point>)
      requires AllOutputs(items)
      ensures outputs == OutputsIn(items)
      ensures commitSum == if outputs == [] then None else Some(P(SumSeq(outputs, OutputVec)))
      ensures stealthSum == if outputs == [] then None else Some(P(SumSeq(outputs, SenderVec)))
    {
      outputs, commitSum, stealthSum := [], None, None;
      for i := 0 to |items|
        invariant outputs == OutputsIn(items[..i])
        invariant commitSum == if outputs == [] then None else Some(P(SumSeq(outputs, OutputVec)))
        invariant stealthSum == if outputs == [] then None else Some(P(SumSeq(outputs, SenderVec)))
      {
        var output := items[i].output;
        SumNext(outputs, output, OutputVec, output.commitment);
        SumNext(outputs, output, SenderVec, output.senderPubKey);
        if commitSum.None? {
          commitSum, stealthSum := Some(output.commitment), Some(output.senderPubKey);
        } else {
          commitSum := Some(Add(commitSum.value, output.commitment));
          stealthSum := Some(Add(stealthSum.value, output.senderPubKey));
        }
        outputs := outputs + [output];
      }
      assert items[..|items|] == items;
    }

    /** Sum the excesses of the kernels of a backward message, less their fees, while reading them. */
    method ReadKernels(items: Message) returns (kernels: seq<MwebKernel>, kernelExcess: Point, stealthExcess: Point)
      requires AllKernels(items) && items != []
      ensures kernels == KernelsIn(items)
      ensures kernelExcess == P(SumSeq(kernels, KernelVec))
      ensures stealthExcess == P(SumSeq(kernels, StealthExcessVec))
    {
      var kernel := items[0].kernel;
      kernels, kernelExcess, stealthExcess := [kernel], kernel.excess, kernel.stealthExcess;
      kernelExcess := Sub(kernelExcess, NewCommitment(0, kernel.fee));
      KernelFirst(kernel);
      for i := 1 to |items|
        invariant kernels == KernelsIn(items[..i])
        invariant kernelExcess == P(SumSeq(kernels, KernelVec))
        invariant stealthExcess == P(SumSeq(kernels, StealthExcessVec))
      {
        kernel := items[i].kernel;
        KernelNext(kernels, kernel);
        SumNext(kernels, kernel, StealthExcessVec, kernel.stealthExcess);
        kernelExcess := Sub(Add(kernelExcess, kernel.excess), NewCommitment(0, kernel.fee));
        stealthExcess := Add(stealthExcess, kernel.stealthExcess);
        kernels := kernels + [kernel];
      }
      assert items[..|items|] == items;
    }

    /**
     * Keep the onions whose next commitment is listed and take them off the two sums. None stands for
     * the panic on an onion that does not peel, or on a sum that was never set.
     */
    method Retain(
      commits: seq<Point>, commitSum: Option<Point>, stealthSum: Option<Point>, ghost c0: Vec, ghost s0: Vec)
      returns (sums: Option<(Point, Point)>)
      requires commitSum.Some? <==> stealthSum.Some?
      requires commitSum.Some? ==> commitSum.value == P(c0) && stealthSum.value == P(s0)
      modifies this`onions
      ensures sums.Some? <==> commitSum.Some? && AllPeel(peel, old(onions))
      ensures sums.None? ==> Part(onions, old(onions))
      ensures sums.Some? ==> onions == Kept(peel, old(onions), commits)
      ensures sums.Some? ==> sums.value.0 == P(c0.Minus(SumSet(onions.Keys, NextVec(peel, onions))))
      ensures sums.Some? ==> sums.value.1 == P(s0.Minus(SumSet(onions.Keys, NextStealthVec(peel, onions))))
    {
      hide Next, NextStealth, Kept, AllPeel, RetainedSoFar;
      ghost var all, kept := onions, map[];
      var c, s := commitSum, stealthSum;
      var todo := onions.Keys;
      RetainStarts(peel, all, commits, c, s, c0, s0);
      while todo != {}
        invariant c.Some? <==> commitSum.Some?
        invariant s.Some? <==> commitSum.Some?
        invariant todo <= all.Keys && onions == Rest(all, kept, todo)
        invariant RetainedSoFar(peel, all, commits, kept, todo, c, s, c0, s0)
      {
        var commit :| commit in todo;
        RestHas(all, kept, todo, commit);
        var o := onions[commit];
        if peel(o.onion).Err? {
          DoesNotPeel(peel, all, commit);
          return None;
        }
        var commit2 := Next(peel, commit, o);
        if commit2 in commits {
          if c.None? {
            return None;
          }
          RetainKeeps(peel, all, commits, kept, todo, c, s, c0, s0, commit);
          kept := kept[commit := o];
          c := Some(Sub(c.value, commit2));
          s := Some(Sub(s.value, NextStealth(peel, o)));
        } else {
          RetainDrops(peel, all, commits, kept, todo, c, s, c0, s0, commit);
          onions := onions - {commit};
        }
        todo := todo - {commit};
      }
      RetainEnds(peel, all, commits, kept, c, s, c0, s0);
      if c.None? {
        return None;
      }
      sums := Some((c.value, s.value));
    }

    /** What the queue loses when a call ends with this outcome. */
    ghost function Spent(outcome: Outcome): set<seq<byte>>
      reads `onions
    {
      if outcome.Finalized? && outcome.accepted then BucketKeys(onions) else {}
    }

    /**
     * What a call leaves in the queue: spent onions go with their amounts, nothing else does, and
     * nothing at all unless a transaction was accepted; all of them if the deletions worked.
     */
    ghost predicate QueueLeft(before: Buckets, outcome: Outcome)
      reads `onions, db
    {
      Removed(before, Spent(outcome), outcome.Finalized? && outcome.cleaned, db.Contents())
    }

    /** What any remote call leaves is what steps of the lock holder leave. */
    lemma LeftIsHolder(before: Buckets, outcome: Outcome)
      requires QueueLeft(before, outcome)
      ensures ByHolder(before, db.Contents())
    {
      RemovalIsHolder(before, Spent(outcome), outcome.Finalized? && outcome.cleaned, db.Contents());
    }

    /** Read a backward message, summing on the way. */
    method Receive(message: Message)
      returns (read: Option<(seq<Point>, seq<MwebOutput>, seq<MwebKernel>)>,
               commitSum: Option<Point>, stealthSum: Option<Point>, kernelExcess: Point, stealthExcess: Point)
      requires Me().Placed() && !Me().Last()
      ensures read == ReadBackward(Me(), message)
      ensures read.Some? ==>
        commitSum == if read.value.1 == [] then None else Some(P(SumSeq(read.value.1, OutputVec)))
      ensures read.Some? ==>
        stealthSum == if read.value.1 == [] then None else Some(P(SumSeq(read.value.1, SenderVec)))
      ensures read.Some? ==> kernelExcess == P(SumSeq(read.value.2, KernelVec))
      ensures read.Some? ==> stealthExcess == P(SumSeq(read.value.2, StealthExcessVec))
    {
      hide SumSeq, FeeShare, ShareAmong, AllOutputs, AllKernels, OutputsIn, KernelsIn;
      read, commitSum, stealthSum, kernelExcess, stealthExcess := None, None, None, P(Zero), P(Zero);
      if |message| < 2 || !message[0].Commits? || !message[1].Count? {
        return;
      }
      var m := if message[1].count < 0 then 0 else message[1].count;
      var k := |Peers()| - 1 - nodeIndex;
      if |message| < 2 + m + k || !AllOutputs(message[2..2 + m]) || !AllKernels(message[2 + m..2 + m + k]) {
        return;
      }
      var outputs, kernels;
      outputs, commitSum, stealthSum := ReadOutputs(message[2..2 + m]);
      kernels, kernelExcess, stealthExcess := ReadKernels(message[2 + m..2 + m + k]);
      read := Some((message[0].commits, outputs, kernels));
    }

    /** The call `swap_backward`. */
    method Backward(message: Message, senderKey: Bytes32, accepted: bool)
      returns (outcome: Outcome, called: Option<string>)
      requires Me().Placed() && (nodeIndex == 0 ==> KeyedByInput(onions))
      modifies `onions, db
      ensures BackwardStep(Me(), old(onions), message, onions, outcome)
      ensures nodeIndex + 1 == |Peers()| ==> outcome == Ignored && onions == old(onions)
      ensures nodeIndex == 0 ==> KeyedByInput(onions)
      ensures QueueLeft(old(db.Contents()), outcome)
      ensures Calls(outcome, called)
    {
      hide BucketKeys, SumSet, SumSeq, BackwardOutcome, Kept, ReadBackward, KeyedByInput, FeeShare, ShareAmong,
        Removed;
      NothingRemoved(db.Contents());
      if nodeIndex == |Peers()| - 1 {
        return Ignored, None;
      }
      var read, commitSum, stealthSum, kernelExcess, stealthExcess := Receive(message);
      if read.None? {
        return Failed(Undecodable), None;
      }
      var (commits, outputs, kernels) := read.value;
      var sums := Retain(commits, commitSum, stealthSum, SumSeq(outputs, OutputVec), SumSeq(outputs, SenderVec));
      if sums.None? {
        if nodeIndex == 0 {
          PartKeyed(onions, old(onions));
        }
        return Panicked, None;
      }
      KeptPart(peel, old(onions), commits);
      if sums.value.0 != kernelExcess {
        return Failed(CommitInvariant), None;
      }
      if sums.value.1 != stealthExcess {
        return Failed(StealthInvariant), None;
      }
      outcome, called := BackwardBatch(outputs, kernels, senderKey, accepted);
    }

    /** Peel what is held, then send it on; at the last node turn round. */
    method ForwardBatch(senderKey: Bytes32, accepted: bool) returns (outcome: Outcome, called: Option<string>)
      requires Peers() != [] ==> Me().Placed()
      requires nodeIndex == 0 ==> KeyedByInput(onions)
      modifies `onions, db
      ensures Peers() == [] ==> outcome == Ignored && onions == old(onions)
      ensures Peers() != [] ==> ForwardOutcome(Me(), old(onions), onions, outcome)
      ensures nodeIndex == 0 ==> KeyedByInput(onions)
      ensures QueueLeft(old(db.Contents()), outcome)
      ensures Calls(outcome, called)
      ensures outcome.Finalized? ==> outcome.accepted == accepted && (outcome.cleaned ==> accepted)
    {
      hide BucketKeys, PeelOutcome, BackwardOutcome, FeeShare, ShareAmong, Removed;
      NothingRemoved(db.Contents());
      if |Peers()| == 0 {
        return Ignored, None;
      }
      var out, outputs;
      ghost var order;
      out, outputs, order := PeelOnions();
      PeelKeepsKeys(Me(), old(onions), onions, out, outputs, order);
      if nodeIndex == |Peers()| - 1 {
        outcome, called := BackwardBatch(outputs, [], senderKey, accepted);
        assert PeelOutcome(Me(), old(onions), onions, out, outputs, order);
      } else {
        var commits := CollectAscending(out.Keys);
        assert PeelOutcome(Me(), old(onions), onions, out, outputs, order);
        var reached := *;
        if !reached {
          return Failed(Unreachable), None;
        }
        called := Some(Peers()[nodeIndex + 1]);
        outcome := SendForward(ForwardMessage(commits, Pick(out, commits)));
        assert SendsOn(out, outcome);
      }
    }

    /** The call `swap_forward`. */
    method Forward(message: Message, senderKey: Bytes32, accepted: bool)
      returns (outcome: Outcome, called: Option<string>)
      requires Me().Placed() && (nodeIndex == 0 ==> KeyedByInput(onions))
      modifies `onions, db
      ensures ForwardStep(Me(), old(onions), message, onions, outcome)
      ensures nodeIndex == 0 ==> outcome == Ignored && onions == old(onions)
      ensures nodeIndex == 0 ==> KeyedByInput(onions)
      ensures QueueLeft(old(db.Contents()), outcome)
      ensures Calls(outcome, called)
    {
      hide BucketKeys, ForwardOutcome, KeyedByInput, Removed;
      NothingRemoved(db.Contents());
      if nodeIndex == 0 {
        return Ignored, None;
      }
      if message == [] || !message[0].Commits? {
        return Failed(Undecodable), None;
      }
      var commits, items := message[0].commits, message[1..];
      onions := map[];
      for i := 0 to |commits|
        invariant i <= |items| && ReadOnions(commits[..i], items) == Some(onions)
        invariant ReadUpTo(map[], commits, items) == ReadUpTo(onions, commits[i..], items[i..])
        invariant db.Contents() == old(db.Contents())
      {
        assert commits[..i + 1][..i] == commits[..i];
        assert commits[i..][1..] == commits[i + 1..];
        if i >= |items| || !items[i].OnionItem? {
          ReadOnionsStops(commits, items, i + 1);
          return Failed(Undecodable), None;
        }
        assert items[i..][1..] == items[i + 1..];
        onions := onions[commits[i] := items[i].onion];
      }
      assert commits[..|commits|] == commits;
      outcome, called := ForwardBatch(senderKey, accepted);
    }

    /**
     * Load the queue: invalid onions are deleted, valid ones are held; their recorded amounts are listed.
     * The first database error ends it.
     */
    method Load(coins: map<seq<byte>, MwebOutput>)
      returns (ok: bool, amts: seq<Option<nat>>, ghost order: seq<seq<byte>>)
      requires db.Valid()
      modifies `onions, db
      ensures KeyedByInput(onions)
      ensures Removed(old(db.Contents()), InvalidKeys(coins, old(db.onions)), ok, db.Contents())
      ensures ok ==> db.Contents() == Purged(old(db.Contents()), coins)
      ensures ok ==> forall k :: k in db.onions <==> k in old(db.onions) && ValidOnion(coins, old(db.onions)[k])
      ensures ok ==> forall k :: k in db.amounts <==>
        k in old(db.amounts) && (k in old(db.onions) ==> ValidOnion(coins, old(db.onions)[k]))
      ensures ok ==> Visits(order, db.onions.Keys) && Loaded(db.onions, order, onions)
      ensures ok ==> amts == Amounts(old(db.amounts), order)
    {
      hide ValidOnion, InputFromOnion, LoadedSoFar;
      ok, onions, amts, order := *, map[], [], [];
      var todo := db.onions.Keys;
      ghost var stored, amounts := db.onions, db.amounts;
      NothingRemoved(db.Contents());
      if !ok {
        return;
      }
      LoadStarts(coins, stored, amounts);
      while todo != {}
        invariant todo <= stored.Keys
        invariant LoadedSoFar(coins, stored, amounts, todo, db.onions, db.amounts, order, onions, amts)
      {
        var k :| k in todo;
        LoadHas(coins, stored, amounts, todo, db.onions, db.amounts, order, onions, amts, k);
        var onion := db.onions[k];
        if !ValidOnion(coins, onion) {
          ghost var now := db.Contents();
          ok := db.DeleteOnion(onion);
          LoadDeletes(coins, stored, amounts, todo, now, order, onions, amts, k, db.Contents(), ok);
          if !ok {
            return;
          }
          LoadDrops(coins, stored, amounts, todo, now.onions, now.amounts, order, onions, amts, k);
        } else {
          ok := *;
          if !ok {
            LoadBreaks(coins, stored, amounts, todo, db.Contents(), order, onions, amts);
            return;
          }
          LoadKeeps(coins, stored, amounts, todo, db.onions, db.amounts, order, onions, amts, k);
          amts := amts + [if k in db.amounts then Some(db.amounts[k]) else None];
          var input := InputFromOnion(onion).value;
          onions := onions[input.commitment := OnionEtc(onion, Sub(input.outputPubKey, input.inputPubKey))];
          order := order + [k];
        }
        todo := todo - {k};
      }
      LoadEnds(coins, stored, amounts, db.onions, db.amounts, order, onions, amts);
      PurgedIsRemoved(coins, old(db.Contents()));
      ok := true;
    }

    /**
     * The daily swap, served by node 0: load the queue, drop what is invalid, refuse a batch that mixes
     * denominations, peel and send on. A refusal leaves the loaded onions and the queue in place.
     */
    method PerformSwap(coins: map<seq<byte>, MwebOutput>, senderKey: Bytes32, accepted: bool)
      returns (outcome: Outcome, called: Option<string>, ghost loaded: Held, ghost order: seq<seq<byte>>)
      requires db.Valid()
      modifies `onions, db
      ensures submitRemote || nodeIndex != 0 ==>
        outcome == Ignored && onions == old(onions) && db.Contents() == old(db.Contents())
      ensures !submitRemote && nodeIndex == 0 && outcome != Failed(StorageFailed) ==>
        SwapOutcome(Me(), ValidOnes(coins, old(db.onions)), old(db.onions) == map[], old(db.amounts), order, loaded,
                    onions, outcome)
      ensures BatchLeaves(old(db.Contents()), coins, outcome, db.Contents())
      ensures Calls(outcome, called)
      ensures outcome.Finalized? ==> outcome.accepted == accepted && (outcome.cleaned ==> accepted)
      ensures outcome.SendForward? && |mlnPeers| == 3 ==> called == Some(mlnPeers[1])
      ensures outcome.SendForward? && |mlnPeers| != 3 ==> |nodes| > 1 && called == Some(nodes[1])
    {
      hide ValidOnion, BucketKeys, ForwardOutcome, ValidOnes, Amounts, KeyedByInput, FeeShare, ShareAmong,
        SwapOutcome, Loaded, Visits, OneDenomination, Removed;
      if submitRemote || nodeIndex != 0 {
        outcome, called, loaded, order := Ignored, None, map[], [];
        return;
      }
      called := None;
      var queued := db.onions;
      var ok, amts;
      ok, amts, order := Load(coins);
      loaded := onions;
      if !ok {
        outcome := Failed(StorageFailed);
        return;
      }
      NothingRemoved(db.Contents());
      if queued != map[] && onions == map[] {
        outcome := Failed(NoValidOnion);
        SwapDecided(Me(), db.onions, false, old(db.amounts), order, loaded, onions, outcome);
        return;
      }
      var one := RequireSameDenomination(amts);
      if !one {
        outcome := Failed(MixedDenominations);
        SwapDecided(Me(), db.onions, queued == map[], old(db.amounts), order, loaded, onions, outcome);
        return;
      }
      ghost var valid := db.onions;
      LoadedKeyed(valid, order, onions);
      outcome, called := ForwardBatch(senderKey, accepted);
      if |Peers()| > 0 {
        NoStorageInvolved(Me(), loaded, onions, outcome);
      }
      SwapDecided(Me(), valid, queued == map[], old(db.amounts), order, loaded, onions, outcome);
    }

    /** What a batch leaves in the queue: invalid onions are gone, and of the valid ones the spent ones. */
    ghost predicate BatchLeaves(
      before: Buckets, coins: map<seq<byte>, MwebOutput>, outcome: Outcome, after: Buckets)
      reads `onions, `nodeIndex, `submitRemote
    {
      BatchLeft(before, coins, submitRemote || nodeIndex != 0, outcome, Spent(outcome), after)
    }
  }

  /** The keys of the invalid onions. */
  ghost function InvalidKeys(coins: map<seq<byte>, MwebOutput>, stored: map<seq<byte>, Onion>): set<seq<byte>> {
    stored.Keys - ValidOnes(coins, stored).Keys
  }

  /** The queue without its invalid onions. */
  ghost function Purged(b: Buckets, coins: map<seq<byte>, MwebOutput>): Buckets {
    Buckets(ValidOnes(coins, b.onions), b.amounts - InvalidKeys(coins, b.onions))
  }

  ghost predicate BatchLeft(
    before: Buckets, coins: map<seq<byte>, MwebOutput>, idle: bool, outcome: Outcome, spent: set<seq<byte>>,
    after: Buckets)
  {
    if idle then after == before
    else if outcome == Failed(StorageFailed) then Removed(before, InvalidKeys(coins, before.onions), false, after)
    else Removed(Purged(before, coins), spent, outcome.Finalized? && outcome.cleaned, after)
  }

  /** A batch is a run of the lock holder. */
  lemma BatchIsHolder(
    before: Buckets, coins: map<seq<byte>, MwebOutput>, idle: bool, outcome: Outcome, spent: set<seq<byte>>,
    after: Buckets)
    requires BatchLeft(before, coins, idle, outcome, spent, after)
    ensures ByHolder(before, after)
  {
    hide Removed, ByHolder, Purged, InvalidKeys;
    if idle {
      StaysIsHolder(before);
    } else if outcome == Failed(StorageFailed) {
      RemovalIsHolder(before, InvalidKeys(coins, before.onions), false, after);
    } else {
      PurgedIsRemoved(coins, before);
      RemovalIsHolder(before, InvalidKeys(coins, before.onions), true, Purged(before, coins));
      RemovalIsHolder(Purged(before, coins), spent, outcome.Finalized? && outcome.cleaned, after);
      HolderGoesOn(before, Purged(before, coins), after);
    }
  }

  /** The call returns an error: a check failed, or the transaction was not accepted and cleaned up after. */
  predicate Refused(outcome: Outcome) {
    outcome.Panicked? || outcome.Failed? || (outcome.Finalized? && !outcome.cleaned)
  }

  /** Peeling and sending on do not touch the queue before a transaction is finished. */
  lemma NoStorageInvolved(node: Node, all: Held, held: Held, outcome: Outcome)
    requires node.Placed() && ForwardOutcome(node, all, held, outcome)
    ensures outcome != Failed(StorageFailed)
  {
    hide PeelOutcome, Leaves;
  }

  /** Every stored onion stays under its own key. */
  lemma BatchKeepsKeys(
    before: Buckets, coins: map<seq<byte>, MwebOutput>, idle: bool, outcome: Outcome, spent: set<seq<byte>>,
    after: Buckets)
    requires forall k :: k in before.onions ==> before.onions[k].input.commitment == k
    requires BatchLeft(before, coins, idle, outcome, spent, after)
    ensures forall k :: k in after.onions ==> after.onions[k].input.commitment == k
  {
    hide ValidOnion;
  }

  lemma NothingWithout(b: Buckets)
    ensures Without(b, {}, {}, b)
  {
    assert b.onions - {} == b.onions && b.amounts - {} == b.amounts;
  }

  lemma PurgedIsRemoved(coins: map<seq<byte>, MwebOutput>, b: Buckets)
    ensures Removed(b, InvalidKeys(coins, b.onions), true, Purged(b, coins))
  {
    hide ValidOnion;
    var gone := InvalidKeys(coins, b.onions);
    assert b.onions - gone == ValidOnes(coins, b.onions);
    assert Without(b, gone, gone, Purged(b, coins));
  }

  /** The queue in the middle of the loading loop: some invalid onions are gone with their amounts. */
  lemma LoadBreaks(
    coins: map<seq<byte>, MwebOutput>, stored: map<seq<byte>, Onion>, amounts: map<seq<byte>, nat>,
    todo: set<seq<byte>>, now: Buckets, order: seq<seq<byte>>, held: Held, amts: seq<Option<nat>>)
    requires LoadedSoFar(coins, stored, amounts, todo, now.onions, now.amounts, order, held, amts)
    ensures KeyedByInput(held)
    ensures var gone := stored.Keys - now.onions.Keys;
            gone <= InvalidKeys(coins, stored) && Without(Buckets(stored, amounts), gone, gone, now)
    ensures Removed(Buckets(stored, amounts), InvalidKeys(coins, stored), false, now)
  {
    hide ValidOnion, InputFromOnion, KeyedByInput, Amounts;
    var gone := stored.Keys - now.onions.Keys;
    assert stored - gone == now.onions;
    assert Without(Buckets(stored, amounts), gone, gone, now);
  }

  /** A deletion in the loop, complete or not. */
  lemma LoadDeletes(
    coins: map<seq<byte>, MwebOutput>, stored: map<seq<byte>, Onion>, amounts: map<seq<byte>, nat>,
    todo: set<seq<byte>>, now: Buckets, order: seq<seq<byte>>, held: Held, amts: seq<Option<nat>>,
    k: seq<byte>, after: Buckets, ok: bool)
    requires LoadedSoFar(coins, stored, amounts, todo, now.onions, now.amounts, order, held, amts)
    requires k in todo && todo <= stored.Keys && !ValidOnion(coins, stored[k])
    requires stored[k].input.commitment == k && DeletedBy(now, stored[k], after, ok)
    ensures KeyedByInput(held)
    ensures ok ==> after == Buckets(now.onions - {k}, now.amounts - {k})
    ensures Removed(Buckets(stored, amounts), InvalidKeys(coins, stored), false, after)
  {
    hide LoadedSoFar, ValidOnion, KeyedByInput, Removed, Without;
    LoadBreaks(coins, stored, amounts, todo, now, order, held, amts);
    OneMoreRemoved(Buckets(stored, amounts), stored.Keys - now.onions.Keys, now, stored[k], after, ok);
    assert k in InvalidKeys(coins, stored);
  }

  /** The valid onions of the queue. */
  ghost function ValidOnes(coins: map<seq<byte>, MwebOutput>, stored: map<seq<byte>, Onion>): map<seq<byte>, Onion> {
    map k | k in stored && ValidOnion(coins, stored[k]) :: stored[k]
  }

  function Amounts(amounts: map<seq<byte>, nat>, order: seq<seq<byte>>): seq<Option<nat>> {
    seq(|order|, i requires 0 <= i < |order| => if order[i] in amounts then Some(amounts[order[i]]) else None)
  }

  /** `held` are the onions stored under `order`, each under the commitment that its input spends. */
  ghost predicate Loaded(stored: map<seq<byte>, Onion>, order: seq<seq<byte>>, held: Held) {
    && KeyedByInput(held)
    && (forall k :: k in order ==>
          k in stored && InputFromOnion(stored[k]).Some? && InputFromOnion(stored[k]).value.commitment in held)
    && (forall c :: c in held ==>
          held[c].onion.input.commitment in order && stored[held[c].onion.input.commitment] == held[c].onion)
  }

  /** The loading loop with the keys `todo` not visited yet. */
  ghost predicate LoadedSoFar(
    coins: map<seq<byte>, MwebOutput>, stored: map<seq<byte>, Onion>, amounts: map<seq<byte>, nat>,
    todo: set<seq<byte>>, left: map<seq<byte>, Onion>, leftAmounts: map<seq<byte>, nat>, order: seq<seq<byte>>,
    held: Held, amts: seq<Option<nat>>)
  {
    && (forall k :: k in stored ==> stored[k].input.commitment == k)
    && (forall k :: k in left <==> k in stored && (k in todo || ValidOnion(coins, stored[k])))
    && (forall k :: k in left ==> left[k] == stored[k])
    && leftAmounts == amounts - (stored.Keys - left.Keys)
    && Visits(order, left.Keys - todo)
    && (forall k :: k in order ==> k in left)
    && Loaded(stored, order, held)
    && amts == Amounts(amounts, order)
  }

  /** What `performSwap` does with the valid onions of the queue, listed in `order`. */
  ghost predicate SwapOutcome(
    node: Node, valid: map<seq<byte>, Onion>, empty: bool, amounts: map<seq<byte>, nat>, order: seq<seq<byte>>,
    loaded: Held, held: Held, outcome: Outcome)
    requires node.index == 0
  {
    && Visits(order, valid.Keys)
    && Loaded(valid, order, loaded)
    && if !empty && loaded == map[] then outcome == Failed(NoValidOnion) && held == loaded
       else if !OneDenomination(Amounts(amounts, order)) then outcome == Failed(MixedDenominations) && held == loaded
       else if node.count == 0 then outcome == Ignored && held == loaded
       else ForwardOutcome(node, loaded, held, outcome)
  }

  lemma SwapDecided(
    node: Node, valid: map<seq<byte>, Onion>, empty: bool, amounts: map<seq<byte>, nat>, order: seq<seq<byte>>,
    loaded: Held, held: Held, outcome: Outcome)
    requires node.index == 0 && Visits(order, valid.Keys) && Loaded(valid, order, loaded)
    requires if !empty && loaded == map[] then outcome == Failed(NoValidOnion) && held == loaded
             else if !OneDenomination(Amounts(amounts, order))
               then outcome == Failed(MixedDenominations) && held == loaded
             else if node.count == 0 then outcome == Ignored && held == loaded
             else ForwardOutcome(node, loaded, held, outcome)
    ensures SwapOutcome(node, valid, empty, amounts, order, loaded, held, outcome)
  {
    hide Visits, Loaded, OneDenomination, ForwardOutcome;
  }

  lemma LoadedKeyed(valid: map<seq<byte>, Onion>, order: seq<seq<byte>>, held: Held)
    requires Loaded(valid, order, held)
    ensures KeyedByInput(held)
  {
  }

  lemma LoadStarts(coins: map<seq<byte>, MwebOutput>, stored: map<seq<byte>, Onion>, amounts: map<seq<byte>, nat>)
    requires forall k :: k in stored ==> stored[k].input.commitment == k
    ensures LoadedSoFar(coins, stored, amounts, stored.Keys, stored, amounts, [], map[], [])
  {
    hide ValidOnion;
    assert stored.Keys - stored.Keys == {};
    assert amounts - {} == amounts;
  }

  lemma LoadHas(
    coins: map<seq<byte>, MwebOutput>, stored: map<seq<byte>, Onion>, amounts: map<seq<byte>, nat>,
    todo: set<seq<byte>>, left: map<seq<byte>, Onion>, leftAmounts: map<seq<byte>, nat>, order: seq<seq<byte>>,
    held: Held, amts: seq<Option<nat>>, k: seq<byte>)
    requires LoadedSoFar(coins, stored, amounts, todo, left, leftAmounts, order, held, amts)
    requires k in todo && todo <= stored.Keys
    ensures k in left && left[k] == stored[k] && left[k].input.commitment == k
    ensures ValidOnion(coins, left[k]) ==> InputFromOnion(left[k]).Some?
  {
  }

  lemma OneGone<K, V, W>(m: map<K, V>, rest: map<K, V>, all: set<K>, left: map<K, W>, k: K)
    requires rest == m - (all - left.Keys) && k in all
    ensures rest - {k} == m - (all - (left - {k}).Keys)
  {
    assert all - (left - {k}).Keys == all - left.Keys + {k};
  }

  lemma OrderWithout<T>(order: seq<T>, s: set<T>, k: T)
    requires Visits(order, s) && k !in s
    ensures k !in order
  {
    VisitsElements(order, s);
  }

  lemma LoadDrops(
    coins: map<seq<byte>, MwebOutput>, stored: map<seq<byte>, Onion>, amounts: map<seq<byte>, nat>,
    todo: set<seq<byte>>, left: map<seq<byte>, Onion>, leftAmounts: map<seq<byte>, nat>, order: seq<seq<byte>>,
    held: Held, amts: seq<Option<nat>>, k: seq<byte>)
    requires LoadedSoFar(coins, stored, amounts, todo, left, leftAmounts, order, held, amts)
    requires k in todo && todo <= stored.Keys
    requires !ValidOnion(coins, stored[k])
    ensures LoadedSoFar(coins, stored, amounts, todo - {k}, left - {k}, leftAmounts - {k}, order, held, amts)
  {
    hide ValidOnion, Loaded, Amounts, Visits;
    OneGone(amounts, leftAmounts, stored.Keys, left, k);
    OrderWithout(order, left.Keys - todo, k);
    assert (left - {k}).Keys - (todo - {k}) == left.Keys - todo;
  }

  lemma LoadKeeps(
    coins: map<seq<byte>, MwebOutput>, stored: map<seq<byte>, Onion>, amounts: map<seq<byte>, nat>,
    todo: set<seq<byte>>, left: map<seq<byte>, Onion>, leftAmounts: map<seq<byte>, nat>, order: seq<seq<byte>>,
    held: Held, amts: seq<Option<nat>>, k: seq<byte>)
    requires LoadedSoFar(coins, stored, amounts, todo, left, leftAmounts, order, held, amts)
    requires k in todo && todo <= stored.Keys
    requires ValidOnion(coins, stored[k]) && InputFromOnion(stored[k]).Some?
    ensures var input := InputFromOnion(stored[k]).value;
            LoadedSoFar(coins, stored, amounts, todo - {k}, left, leftAmounts, order + [k],
                        held[input.commitment := OnionEtc(stored[k], Sub(input.outputPubKey, input.inputPubKey))],
                        amts + [if k in leftAmounts then Some(leftAmounts[k]) else None])
  {
    hide ValidOnion;
    assert left.Keys - (todo - {k}) == left.Keys - todo + {k};
    VisitsMore(order, left.Keys - todo, k);
    assert k in leftAmounts <==> k in amounts;
    LoadedMore(stored, order, held, k);
    hide Loaded;
  }

  lemma LoadedMore(stored: map<seq<byte>, Onion>, order: seq<seq<byte>>, held: Held, k: seq<byte>)
    requires Loaded(stored, order, held) && k in stored && stored[k].input.commitment == k
      && InputFromOnion(stored[k]).Some?
    ensures var input := InputFromOnion(stored[k]).value;
            Loaded(stored, order + [k],
                   held[input.commitment := OnionEtc(stored[k], Sub(input.outputPubKey, input.inputPubKey))])
  {
    hide InputFromOnion;
  }

  lemma LoadEnds(
    coins: map<seq<byte>, MwebOutput>, stored: map<seq<byte>, Onion>, amounts: map<seq<byte>, nat>,
    left: map<seq<byte>, Onion>, leftAmounts: map<seq<byte>, nat>, order: seq<seq<byte>>, held: Held,
    amts: seq<Option<nat>>)
    requires LoadedSoFar(coins, stored, amounts, {}, left, leftAmounts, order, held, amts)
    ensures left == ValidOnes(coins, stored) && leftAmounts == amounts - (stored.Keys - left.Keys)
    ensures Visits(order, left.Keys) && Loaded(left, order, held) && amts == Amounts(amounts, order)
  {
    LeftAreValid(coins, stored, left);
    LoadedLeft(stored, left, order, held);
    assert left.Keys - {} == left.Keys;
    hide *;
  }

  lemma LeftAreValid(coins: map<seq<byte>, MwebOutput>, stored: map<seq<byte>, Onion>, left: map<seq<byte>, Onion>)
    requires forall k :: k in left <==> k in stored && ValidOnion(coins, stored[k])
    requires forall k :: k in left ==> left[k] == stored[k]
    ensures left == ValidOnes(coins, stored)
  {
    hide ValidOnion;
  }

  lemma LoadedLeft(stored: map<seq<byte>, Onion>, left: map<seq<byte>, Onion>, order: seq<seq<byte>>, held: Held)
    requires Loaded(stored, order, held)
    requires forall k :: k in order ==> k in left
    requires forall k :: k in left ==> k in stored && left[k] == stored[k]
    ensures Loaded(left, order, held)
  {
    hide InputFromOnion, KeyedByInput;
  }

  /** A stream that breaks off early stays unreadable. */
  lemma {:induction false} ReadOnionsStops(commits: seq<Point>, items: Message, k: nat)
    requires k <= |commits| && ReadOnions(commits[..k], items) == None
    ensures ReadOnions(commits, items) == None
    decreases |commits| - k
  {
    if k == |commits| {
      assert commits[..k] == commits;
    } else {
      assert commits[..k + 1][..k] == commits[..k];
      ReadOnionsStops(commits, items, k + 1);
    }
  }

  lemma SumNext<T>(s: seq<T>, x: T, f: T -> Vec, p: Point)
    requires f(x) == Open(p)
    ensures s == [] ==> P(SumSeq(s + [x], f)) == p
    ensures s != [] ==> P(SumSeq(s + [x], f)) == Add(P(SumSeq(s, f)), p)
  {
    SumSeqSnoc(s, x, f);
    OpenNames(p);
    AddNames(SumSeq(s, f), Open(p));
    assert Zero.Plus(Open(p)) == Open(p);
  }

  lemma KernelFirst(k: MwebKernel)
    ensures P(SumSeq([k], KernelVec)) == Sub(k.excess, NewCommitment(0, k.fee))
    ensures P(SumSeq([k], StealthExcessVec)) == k.stealthExcess
  {
    OpenNames(k.excess);
    OpenNames(k.stealthExcess);
    SubNames(Open(k.excess), Vec(0, k.fee));
    assert SumSeq([k], KernelVec) == KernelVec(k) && SumSeq([k], StealthExcessVec) == StealthExcessVec(k);
  }

  lemma KernelNext(s: seq<MwebKernel>, k: MwebKernel)
    ensures P(SumSeq(s + [k], KernelVec)) == Sub(Add(P(SumSeq(s, KernelVec)), k.excess), NewCommitment(0, k.fee))
  {
    SumSeqSnoc(s, k, KernelVec);
    OpenNames(k.excess);
    AddNames(SumSeq(s, KernelVec), Open(k.excess));
    SubNames(SumSeq(s, KernelVec).Plus(Open(k.excess)), Vec(0, k.fee));
    assert SumSeq(s, KernelVec).Plus(KernelVec(k)) == SumSeq(s, KernelVec).Plus(Open(k.excess)).Minus(Vec(0, k.fee));
  }

  /** The loop of `Backward`: `kept` are the onions kept so far, `c` and `s` the two running sums. */
  ghost predicate RetainedSoFar(
    peel: Peeler, all: Held, commits: seq<Point>, kept: Held, todo: set<Point>,
    c: Option<Point>, s: Option<Point>, c0: Vec, s0: Vec)
  {
    && kept.Keys !! todo
    && (forall k :: k in kept ==> k in all && kept[k] == all[k])
    && (forall k :: k in all && k !in todo ==>
          Peels(peel, all[k]) && (k in kept <==> Next(peel, k, all[k]) in commits))
    && (c.Some? ==> c.value == P(c0.Minus(SumSet(kept.Keys, NextVec(peel, all)))))
    && (s.Some? ==> s.value == P(s0.Minus(SumSet(kept.Keys, NextStealthVec(peel, all)))))
  }

  lemma RetainStarts(
    peel: Peeler, all: Held, commits: seq<Point>, c: Option<Point>, s: Option<Point>, c0: Vec, s0: Vec)
    requires (c.Some? ==> c.value == P(c0)) && (s.Some? ==> s.value == P(s0))
    ensures Rest(all, map[], all.Keys) == all
    ensures RetainedSoFar(peel, all, commits, map[], all.Keys, c, s, c0, s0)
  {
    assert c0.Minus(Zero) == c0 && s0.Minus(Zero) == s0;
  }

  lemma DoesNotPeel(peel: Peeler, all: Held, commit: Point)
    requires commit in all && !Peels(peel, all[commit])
    ensures !AllPeel(peel, all)
  {
  }

  lemma RetainDrops(
    peel: Peeler, all: Held, commits: seq<Point>, kept: Held, todo: set<Point>,
    c: Option<Point>, s: Option<Point>, c0: Vec, s0: Vec, commit: Point)
    requires commit in todo && todo <= all.Keys && RetainedSoFar(peel, all, commits, kept, todo, c, s, c0, s0)
    requires Peels(peel, all[commit]) && Next(peel, commit, all[commit]) !in commits
    ensures Rest(all, kept, todo - {commit}) == Rest(all, kept, todo) - {commit}
    ensures RetainedSoFar(peel, all, commits, kept, todo - {commit}, c, s, c0, s0)
  {
    RestDrops(all, kept, todo, commit);
    hide Next, SumSet, NextVec, NextStealthVec, Rest, Peels;
  }

  lemma RestDrops(all: Held, kept: Held, todo: set<Point>, commit: Point)
    requires commit in todo && commit !in kept
    ensures Rest(all, kept, todo - {commit}) == Rest(all, kept, todo) - {commit}
  {
  }

  lemma RetainKeeps(
    peel: Peeler, all: Held, commits: seq<Point>, kept: Held, todo: set<Point>,
    c: Option<Point>, s: Option<Point>, c0: Vec, s0: Vec, commit: Point)
    requires commit in todo && todo <= all.Keys && RetainedSoFar(peel, all, commits, kept, todo, c, s, c0, s0)
    requires Peels(peel, all[commit]) && Next(peel, commit, all[commit]) in commits && c.Some? && s.Some?
    ensures Rest(all, kept[commit := all[commit]], todo - {commit}) == Rest(all, kept, todo)
    ensures RetainedSoFar(peel, all, commits, kept[commit := all[commit]], todo - {commit},
                          Some(Sub(c.value, Next(peel, commit, all[commit]))),
                          Some(Sub(s.value, NextStealth(peel, all[commit]))), c0, s0)
  {
    hide Next, NextStealth, SumSet;
    assert kept[commit := all[commit]].Keys == kept.Keys + {commit};
    TakeOff(kept.Keys, NextVec(peel, all), c0, commit, Next(peel, commit, all[commit]));
    TakeOff(kept.Keys, NextStealthVec(peel, all), s0, commit, NextStealth(peel, all[commit]));
    RestKeeps(all, kept, todo, commit);
  }

  lemma TakeOff(s: set<Point>, f: Point -> Vec, base: Vec, x: Point, p: Point)
    requires x !in s && f(x) == Open(p)
    ensures P(base.Minus(SumSet(s + {x}, f))) == Sub(P(base.Minus(SumSet(s, f))), p)
  {
    SumSetInsert(s, x, f);
    OpenNames(p);
    SubNames(base.Minus(SumSet(s, f)), Open(p));
    assert base.Minus(SumSet(s, f)).Minus(Open(p)) == base.Minus(f(x).Plus(SumSet(s, f)));
  }

  lemma RetainEnds(
    peel: Peeler, all: Held, commits: seq<Point>, kept: Held, c: Option<Point>, s: Option<Point>, c0: Vec, s0: Vec)
    requires RetainedSoFar(peel, all, commits, kept, {}, c, s, c0, s0)
    ensures AllPeel(peel, all) && Rest(all, kept, {}) == kept == Kept(peel, all, commits)
    ensures c.Some? ==> c.value == P(c0.Minus(SumSet(kept.Keys, NextVec(peel, kept))))
    ensures s.Some? ==> s.value == P(s0.Minus(SumSet(kept.Keys, NextStealthVec(peel, kept))))
  {
    hide Next, NextStealth, SumSet, NextVec, NextStealthVec, Peels, Rest, Kept;
    SumsWithin(peel, all, kept);
    KeptAll(peel, all, commits, kept);
    hide *;
  }

  lemma KeptAll(peel: Peeler, all: Held, commits: seq<Point>, kept: Held)
    requires Part(kept, all) && AllPeel(peel, all)
    requires forall k :: k in all ==> (k in kept <==> Next(peel, k, all[k]) in commits)
    ensures Rest(all, kept, {}) == kept == Kept(peel, all, commits)
  {
    hide Next;
  }

  /** Sums over some of the onions are the same seen from all of them. */
  lemma SumsWithin(peel: Peeler, all: Held, kept: Held)
    requires Part(kept, all)
    ensures SumSet(kept.Keys, NextVec(peel, all)) == SumSet(kept.Keys, NextVec(peel, kept))
    ensures SumSet(kept.Keys, NextStealthVec(peel, all)) == SumSet(kept.Keys, NextStealthVec(peel, kept))
  {
    hide Next, NextStealth, SumSet, Peels;
    SumSetEqual(kept.Keys, NextVec(peel, all), NextVec(peel, kept));
    SumSetEqual(kept.Keys, NextStealthVec(peel, all), NextStealthVec(peel, kept));
  }

  lemma RunsShort(node: Node, held: Held, earned: int, fee: nat, outputs: seq<MwebOutput>, kernels: seq<MwebKernel>)
    requires earned < fee
    ensures Settled(node, held, earned, fee, outputs, kernels, Failed(InsufficientHopFees))
  {
  }

  lemma SettlesNow(
    node: Node, held: Held, earned: int, fee: nat, value: nat, senderKey: Bytes32, outputs: seq<MwebOutput>,
    kernels: seq<MwebKernel>, outputs': seq<MwebOutput>, kernels': seq<MwebKernel>, outcome: Outcome)
    requires earned == value + fee
    requires Leaves(node.peel, held, value, fee, senderKey, outputs, kernels, outputs', kernels')
    requires Delivers(node, held, outputs', kernels', outcome)
    ensures Settled(node, held, earned, fee, outputs, kernels, outcome)
  {
    hide Leaves, Delivers;
    assert earned - fee == value;
    assert Leaves(node.peel, held, earned - fee, fee, senderKey, outputs, kernels, outputs', kernels');
  }

  /** The three sums over the onions in `s`. */
  ghost predicate HopsSummed(
    peel: Peeler, held: Held, s: set<Point>, kernelBlind: int, stealthBlind: int, nodeFee: nat)
  {
    && SameBlind(kernelBlind, SumSet(s, HopVec(peel, held)).g)
    && SameBlind(stealthBlind, SumSet(s, StealthBlindVec(peel, held)).g)
    && nodeFee == (-SumSet(s, HopVec(peel, held)).v) % U64
  }

  lemma NothingSummed(peel: Peeler, held: Held)
    ensures HopsSummed(peel, held, {}, ZeroScalar(), ZeroScalar(), 0)
  {
  }

  lemma OneMoreSummed(
    peel: Peeler, held: Held, s: set<Point>, c: Point, kernelBlind: int, stealthBlind: int, nodeFee: nat)
    requires c in held && c !in s && Peels(peel, held[c])
    requires HopsSummed(peel, held, s, kernelBlind, stealthBlind, nodeFee)
    ensures var hop := HopOf(peel, held[c]);
            HopsSummed(peel, held, s + {c}, AddScalar(kernelBlind, hop.kernelBlind),
                       AddScalar(stealthBlind, hop.stealthBlind), (nodeFee + hop.fee) % U64)
  {
    hide SameBlind, SumSet, HopVec, StealthBlindVec, HopOf;
    var hop := HopOf(peel, held[c]);
    SumGrows(peel, held, s, c);
    BlindAdds(kernelBlind, SumSet(s, HopVec(peel, held)).g, hop.kernelBlind);
    BlindAdds(stealthBlind, SumSet(s, StealthBlindVec(peel, held)).g, hop.stealthBlind);
    FeeAdds(-SumSet(s, HopVec(peel, held)).v, hop.fee);
  }

  /** Two scalars with the same multiple of G. */
  ghost predicate SameBlind(a: int, b: int) {
    Same(Vec(a, 0), Vec(b, 0))
  }

  function ZeroScalar(): (s: Scalar)
    ensures SameBlind(s, 0)
  {
    0
  }

  lemma BlindAdds(a: int, b: int, c: int)
    requires SameBlind(a, b)
    ensures SameBlind(AddScalar(a, c), b + c)
  {
    SameReduce(a + c, 0);
    SameShift(Vec(a, 0), Vec(b, 0), Vec(c, 0));
  }

  lemma FeeAdds(a: int, b: int)
    ensures (a % U64 + b) % U64 == (a + b) % U64
  {
  }

  lemma SumGrows(peel: Peeler, held: Held, s: set<Point>, c: Point)
    requires c in held && c !in s && Peels(peel, held[c])
    ensures SumSet(s + {c}, HopVec(peel, held)).g ==
      SumSet(s, HopVec(peel, held)).g + HopOf(peel, held[c]).kernelBlind
    ensures -SumSet(s + {c}, HopVec(peel, held)).v == -SumSet(s, HopVec(peel, held)).v + HopOf(peel, held[c]).fee
    ensures SumSet(s + {c}, StealthBlindVec(peel, held)).g
         == SumSet(s, StealthBlindVec(peel, held)).g + HopOf(peel, held[c]).stealthBlind
  {
    SumSetInsert(s, c, HopVec(peel, held));
    SumSetInsert(s, c, StealthBlindVec(peel, held));
  }

  /** The kernel made from reduced scalars is the kernel of the unreduced sums. */
  lemma OwnKernelReduced(
    kernelBlind: int, hopBlind: int, stealthBlind: int, hopStealth: int, value: nat, fee: nat, senderKey: Bytes32)
    requires SameBlind(kernelBlind, hopBlind) && SameBlind(stealthBlind, hopStealth)
    ensures CreateKernel(AddScalar(kernelBlind, BlindSwitch(OwnOutput(value, senderKey).1, value)),
                         AddScalar(stealthBlind, senderKey), fee)
         == OwnKernel(hopBlind, hopStealth, value, fee, senderKey)
  {
    BlindAdds(kernelBlind, hopBlind, BlindSwitch(OwnOutput(value, senderKey).1, value));
    BlindAdds(stealthBlind, hopStealth, senderKey);
  }

  ghost function BucketKeysOf(held: Held, s: set<Point>): set<seq<byte>> {
    set c | c in s && c in held :: held[c].onion.input.commitment
  }

  /** The onions still in the map: those that survived and those not visited yet. */
  ghost function Rest(all: Held, done: Held, todo: set<Point>): Held {
    map c | c in all && (c in done || c in todo) :: all[c]
  }

  /** The loop of the peel: `done` are the survivors among the onions visited so far. */
  ghost predicate PeeledSoFar(
    node: Node, all: Held, done: Held, out: Held, outputs: seq<MwebOutput>, order: seq<Point>)
  {
    && Survive(node, all, done)
    && AllPeel(node.peel, done)
    && Linked(node.peel, done, out)
    && Visits(order, done.Keys)
    && if node.Last() then Outputs(node.peel, done, order, outputs) else outputs == []
  }

  ghost predicate CoveredSoFar(node: Node, all: Held, todo: set<Point>, out: Held) {
    forall c :: c in all && c !in todo && Passes(node, c, all[c]) ==> Next(node.peel, c, all[c]) in out
  }

  lemma PeelStarts(node: Node, all: Held)
    ensures PeeledSoFar(node, all, map[], map[], [], [])
    ensures CoveredSoFar(node, all, all.Keys, map[])
    ensures Rest(all, map[], all.Keys) == all
  {
    assert NextKeys(node.peel, map[]) == {};
  }

  lemma RestHas(all: Held, done: Held, todo: set<Point>, commit: Point)
    requires commit in todo && todo <= all.Keys
    ensures commit in Rest(all, done, todo) && Rest(all, done, todo)[commit] == all[commit]
  {
  }

  /** An onion that fails a check, or collides with a survivor, is deleted. */
  lemma DropOne(node: Node, all: Held, done: Held, todo: set<Point>, out: Held, commit: Point)
    requires commit in todo && todo <= all.Keys && done.Keys !! todo && CoveredSoFar(node, all, todo, out)
    requires Passes(node, commit, all[commit]) ==> Next(node.peel, commit, all[commit]) in out
    ensures Rest(all, done, todo - {commit}) == Rest(all, done, todo) - {commit}
    ensures CoveredSoFar(node, all, todo - {commit}, out)
  {
    hide Passes;
  }

  /** An onion that passes and collides with none is kept and moves on. */
  lemma KeepOne(
    node: Node, all: Held, done: Held, todo: set<Point>, out: Held, outputs: seq<MwebOutput>,
    order: seq<Point>, commit: Point)
    requires commit in todo && todo <= all.Keys && done.Keys !! todo && CoveredSoFar(node, all, todo, out)
    requires PeeledSoFar(node, all, done, out, outputs, order)
    requires Passes(node, commit, all[commit]) && Next(node.peel, commit, all[commit]) !in out
    ensures var more := done[commit := all[commit]];
            var out' := out[Next(node.peel, commit, all[commit]) := NextOnion(node.peel, all[commit])];
            var output := HopOf(node.peel, all[commit]).output;
            && Rest(all, more, todo - {commit}) == Rest(all, done, todo)
            && CoveredSoFar(node, all, todo - {commit}, out')
            && PeeledSoFar(node, all, more, out', outputs + (if output.Some? then [output.value] else []),
              order + [commit])
  {
    RestKeeps(all, done, todo, commit);
    CoveredKeeps(node, all, todo, out, commit);
    SurvivorsGrow(node, all, done, out, outputs, order, commit);
    hide Rest, CoveredSoFar, PeeledSoFar;
  }

  lemma SurvivorsGrow(
    node: Node, all: Held, done: Held, out: Held, outputs: seq<MwebOutput>, order: seq<Point>, commit: Point)
    requires PeeledSoFar(node, all, done, out, outputs, order) && commit in all && commit !in done
    requires Passes(node, commit, all[commit]) && Next(node.peel, commit, all[commit]) !in out
    ensures var output := HopOf(node.peel, all[commit]).output;
            PeeledSoFar(node, all, done[commit := all[commit]],
                        out[Next(node.peel, commit, all[commit]) := NextOnion(node.peel, all[commit])],
                        outputs + (if output.Some? then [output.value] else []), order + [commit])
  {
    SurviveGrows(node, all, done, commit);
    LinkedGrows(node.peel, done, out, commit, all[commit]);
    VisitsMore(order, done.Keys, commit);
    assert done[commit := all[commit]].Keys == done.Keys + {commit};
    if node.Last() {
      OutputsGrow(node.peel, done, order, outputs, commit, all[commit]);
    }
    hide Linked, AllPeel, Visits, Outputs, Survive, Next, NextOnion;
  }

  lemma SurviveGrows(node: Node, all: Held, done: Held, commit: Point)
    requires Survive(node, all, done) && commit in all && Passes(node, commit, all[commit])
    ensures Survive(node, all, done[commit := all[commit]])
  {
    hide Passes;
  }

  lemma RestKeeps(all: Held, done: Held, todo: set<Point>, commit: Point)
    requires commit in todo && todo <= all.Keys
    ensures Rest(all, done[commit := all[commit]], todo - {commit}) == Rest(all, done, todo)
  {
  }

  lemma CoveredKeeps(node: Node, all: Held, todo: set<Point>, out: Held, commit: Point)
    requires commit in todo && todo <= all.Keys && CoveredSoFar(node, all, todo, out) && Peels(node.peel, all[commit])
    ensures CoveredSoFar(node, all, todo - {commit},
                         out[Next(node.peel, commit, all[commit]) := NextOnion(node.peel, all[commit])])
  {
    hide Passes, Next, NextOnion;
  }

  lemma OutputsGrow(
    peel: Peeler, done: Held, order: seq<Point>, outputs: seq<MwebOutput>, commit: Point, o: OnionEtc)
    requires Outputs(peel, done, order, outputs) && commit !in done
    requires Peels(peel, o) && HopOf(peel, o).output.Some?
    ensures Outputs(peel, done[commit := o], order + [commit], outputs + [HopOf(peel, o).output.value])
  {
    hide Peels, HopOf;
  }

  lemma LinkedGrows(peel: Peeler, done: Held, out: Held, commit: Point, o: OnionEtc)
    requires AllPeel(peel, done) && Linked(peel, done, out) && Peels(peel, o)
    requires commit !in done && Next(peel, commit, o) !in out
    ensures AllPeel(peel, done[commit := o])
    ensures Linked(peel, done[commit := o], out[Next(peel, commit, o) := NextOnion(peel, o)])
  {
    AllPeelGrows(peel, done, commit, o);
    OneToOneGrows(peel, done, commit, o);
    KeysGrow(peel, done, commit, o);
    FollowsGrows(peel, done, out, commit, o);
    hide *;
    assert out[Next(peel, commit, o) := NextOnion(peel, o)].Keys == out.Keys + {Next(peel, commit, o)};
    LinkedNow(peel, done[commit := o], out[Next(peel, commit, o) := NextOnion(peel, o)]);
  }

  ghost predicate Follows(peel: Peeler, held: Held, next: Held)
    requires AllPeel(peel, held)
  {
    forall c :: c in held ==>
      Next(peel, c, held[c]) in next && next[Next(peel, c, held[c])] == NextOnion(peel, held[c])
  }

  lemma LinkedNow(peel: Peeler, held: Held, next: Held)
    requires AllPeel(peel, held) && OneToOne(peel, held) && next.Keys == NextKeys(peel, held)
      && Follows(peel, held, next)
    ensures Linked(peel, held, next)
  {
    hide OneToOne, NextKeys, AllPeel, Next, NextOnion;
  }

  lemma FollowsGrows(peel: Peeler, done: Held, out: Held, commit: Point, o: OnionEtc)
    requires AllPeel(peel, done) && AllPeel(peel, done[commit := o]) && Linked(peel, done, out) && Peels(peel, o)
    requires commit !in done && Next(peel, commit, o) !in out
    ensures Follows(peel, done[commit := o], out[Next(peel, commit, o) := NextOnion(peel, o)])
  {
    hide Next, NextOnion, OneToOne, NextKeys, Peels;
  }

  lemma AllPeelGrows(peel: Peeler, done: Held, commit: Point, o: OnionEtc)
    requires AllPeel(peel, done) && Peels(peel, o)
    ensures AllPeel(peel, done[commit := o])
  {
    hide Peels;
  }

  lemma OneToOneGrows(peel: Peeler, done: Held, commit: Point, o: OnionEtc)
    requires AllPeel(peel, done) && AllPeel(peel, done[commit := o]) && OneToOne(peel, done) && Peels(peel, o)
    requires commit !in done && Next(peel, commit, o) !in NextKeys(peel, done)
    ensures OneToOne(peel, done[commit := o])
  {
    hide Next, Peels;
    forall c | c in done ensures Next(peel, c, done[c]) != Next(peel, commit, o) {
      assert Next(peel, c, done[c]) in NextKeys(peel, done);
    }
  }

  lemma KeysGrow(peel: Peeler, done: Held, commit: Point, o: OnionEtc)
    requires AllPeel(peel, done) && AllPeel(peel, done[commit := o]) && Peels(peel, o) && commit !in done
    ensures NextKeys(peel, done[commit := o]) == NextKeys(peel, done) + {Next(peel, commit, o)}
  {
    hide Next, Peels;
    var more := done[commit := o];
    forall d | d in NextKeys(peel, done) + {Next(peel, commit, o)} ensures d in NextKeys(peel, more) {
      if d in NextKeys(peel, done) {
        var c :| c in done && Next(peel, c, done[c]) == d;
        assert c in more && more[c] == done[c];
      } else {
        assert commit in more;
      }
    }
  }

  lemma PeelEnds(node: Node, all: Held, done: Held, out: Held, outputs: seq<MwebOutput>, order: seq<Point>)
    requires PeeledSoFar(node, all, done, out, outputs, order) && CoveredSoFar(node, all, {}, out)
    ensures Rest(all, done, {}) == done
    ensures PeelOutcome(node, all, done, out, outputs, order)
  {
    hide Passes, Linked, Outputs;
  }
}
