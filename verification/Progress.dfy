/**
 * The round never gets stuck: whatever was received, every node that is called has an answer. With the
 * bound on the number of steps this is what makes the round end.
 */
module Progress {
  import opened Bytes
  import opened Curve
  import opened Sums
  import opened Mweb
  import opened SwapSpec
  import opened Balance
  import opened SwapMachine
  import opened Round

  lemma {:induction false} OrderExists<T>(s: set<T>) returns (order: seq<T>)
    ensures Visits(order, s)
  {
    order := [];
    if s != {} {
      var x :| x in s;
      order := OrderExists(s - {x});
      VisitsMore(order, s - {x}, x);
      assert s - {x} + {x} == s;
      order := order + [x];
    }
  }

  lemma {:induction false} GreatestExists(s: set<Point>) returns (greatest: Point)
    requires s != {}
    ensures greatest in s && forall c :: c in s ==> c <= greatest
  {
    greatest :| greatest in s;
    if s != {greatest} {
      var rest := s - {greatest};
      assert rest != {};
      var g := GreatestExists(rest);
      assert forall c :: c in s ==> c == greatest || c in rest;
      if g > greatest {
        greatest := g;
      }
    }
  }

  lemma {:induction false} AscendingExists(s: set<Point>) returns (order: seq<Point>)
    ensures Ascending(order, s)
  {
    order := [];
    if s != {} {
      var x := GreatestExists(s);
      var front := AscendingExists(s - {x});
      VisitsMore(front, s - {x}, x);
      assert s - {x} + {x} == s;
      forall i | 0 <= i < |front| ensures front[i] in s && front[i] < x {
        assert front[i] in front;
      }
      order := front + [x];
    }
  }

  lemma {:induction false} SortExists(outputs: seq<MwebOutput>) returns (sorted: seq<MwebOutput>)
    ensures SortedByHash(sorted) && multiset(sorted) == multiset(outputs)
  {
    sorted := [];
    if outputs != [] {
      var rest := SortExists(outputs[1..]);
      InsertSorts(outputs[0], rest);
      InsertKeeps(outputs[0], rest);
      sorted := Insert(outputs[0], rest);
      assert outputs == [outputs[0]] + outputs[1..];
    }
  }

  /** Every batch can be peeled. */
  lemma PeelExists(node: Node, all: Held) returns (held: Held, out: Held, outputs: seq<MwebOutput>, order: seq<Point>)
    ensures PeelOutcome(node, all, held, out, outputs, order)
  {
    hide PeeledSoFar, CoveredSoFar, PeelOutcome, Passes, Next, NextOnion, HopOf, Peels, Rest;
    held, out, outputs, order := map[], map[], [], [];
    var todo := all.Keys;
    PeelStarts(node, all);
    while todo != {}
      invariant todo <= all.Keys && held.Keys !! todo
      invariant PeeledSoFar(node, all, held, out, outputs, order)
      invariant CoveredSoFar(node, all, todo, out)
    {
      var commit :| commit in todo;
      if Passes(node, commit, all[commit]) && PassPeels(node, commit, all[commit]) !in out {
        KeepOne(node, all, held, todo, out, outputs, order, commit);
        outputs := outputs + OutputOf(node, commit, all[commit]);
        held, out := held[commit := all[commit]],
          out[PassPeels(node, commit, all[commit]) := PassOnion(node, commit, all[commit])];
        order := order + [commit];
      } else {
        DropOne(node, all, held, todo, out, commit);
      }
      todo := todo - {commit};
    }
    PeelEnds(node, all, held, out, outputs, order);
  }

  /** `Next`, `NextOnion` and the output of an onion that passes. */
  ghost function PassPeels(node: Node, commit: Point, o: OnionEtc): (c: Point)
    requires Passes(node, commit, o)
    ensures Peels(node.peel, o) && c == Next(node.peel, commit, o)
  {
    Next(node.peel, commit, o)
  }

  ghost function PassOnion(node: Node, commit: Point, o: OnionEtc): (n: OnionEtc)
    requires Passes(node, commit, o)
    ensures Peels(node.peel, o) && n == NextOnion(node.peel, o)
  {
    NextOnion(node.peel, o)
  }

  ghost function OutputOf(node: Node, commit: Point, o: OnionEtc): (s: seq<MwebOutput>)
    requires Passes(node, commit, o)
    ensures Peels(node.peel, o)
    ensures s == if HopOf(node.peel, o).output.Some? then [HopOf(node.peel, o).output.value] else []
  {
    if HopOf(node.peel, o).output.Some? then [HopOf(node.peel, o).output.value] else []
  }

  lemma SpendsExists(held: Held) returns (inputs: seq<MwebInput>)
    requires KeyedByInput(held)
    ensures Spends(held, inputs)
  {
    hide InputFromOnion, Visits;
    var order := OrderExists(held.Keys);
    VisitsElements(order, held.Keys);
    inputs := seq(|order|, i requires 0 <= i < |order| => InputFromOnion(held[order[i]].onion).value);
    assert SpendsInOrder(held, inputs, order);
  }

  lemma DeliversExists(node: Node, held: Held, outputs: seq<MwebOutput>, kernels: seq<MwebKernel>)
    returns (outcome: Outcome)
    requires node.index == 0 ==> KeyedByInput(held)
    ensures Delivers(node, held, outputs, kernels, outcome) && outcome != Failed(Unreachable)
  {
    hide KeyedByInput, Spends;
    if node.index == 0 {
      var inputs := SpendsExists(held);
      outcome := Finalized(MwebTx(inputs, outputs, kernels), true, true);
    } else {
      var commits := OrderExists(held.Keys);
      outcome := SendBackward(BackwardMessage(commits, outputs, kernels));
    }
  }

  /** Whatever was collected, a node settles. */
  lemma BackwardExists(node: Node, held: Held, outputs: seq<MwebOutput>, kernels: seq<MwebKernel>)
    returns (outcome: Outcome)
    requires node.Placed() && (node.index == 0 ==> KeyedByInput(held))
    ensures BackwardOutcome(node, held, outputs, kernels, outcome) && outcome != Failed(Unreachable)
  {
    hide KeyedByInput, Delivers, FeeTotal, Settled, SumSet, SortedByHash, OwnOutput, OwnKernel;
    var earned := FeeTotal(node.peel, held) % U64;
    var fee := node.share(|outputs| + node.index + 1);
    if earned < fee {
      RunsShort(node, held, earned, fee, outputs, kernels);
      return Failed(InsufficientHopFees);
    }
    var value := earned - fee;
    WidthPositive(32);
    var senderKey: Bytes32 := 0;
    var sorted := SortExists(outputs + [OwnOutput(value, senderKey).0]);
    var more := kernels + [OwnKernel(SumSet(held.Keys, HopVec(node.peel, held)).g,
                                     SumSet(held.Keys, StealthBlindVec(node.peel, held)).g, value, fee, senderKey)];
    outcome := DeliversExists(node, held, sorted, more);
    SettlesNow(node, held, earned, fee, value, senderKey, outputs, kernels, sorted, more, outcome);
  }

  lemma ForwardExists(node: Node, all: Held) returns (held: Held, outcome: Outcome)
    requires node.Placed() && (node.index == 0 ==> KeyedByInput(all))
    ensures ForwardOutcome(node, all, held, outcome) && outcome != Failed(Unreachable)
  {
    hide PeelOutcome, BackwardOutcome, KeyedByInput, Ascending;
    var out, outputs, order;
    held, out, outputs, order := PeelExists(node, all);
    PeelKeepsKeys(node, all, held, out, outputs, order);
    if node.Last() {
      outcome := BackwardExists(node, held, outputs, []);
    } else {
      var commits := AscendingExists(out.Keys);
      AscendingIn(commits, out);
      outcome := SendForward(ForwardMessage(commits, Pick(out, commits)));
      assert SendsOn(out, outcome);
    }
  }

  lemma AscendingIn(commits: seq<Point>, out: Held)
    requires Ascending(commits, out.Keys)
    ensures forall c :: c in commits ==> c in out
  {
  }

  lemma BackwardStepExists(node: Node, all: Held, message: Message) returns (held: Held, outcome: Outcome)
    requires node.Placed() && !node.Last() && AllPeel(node.peel, all) && (node.index == 0 ==> KeyedByInput(all))
    ensures BackwardStep(node, all, message, held, outcome) && outcome != Failed(Unreachable)
  {
    hide KeyedByInput, ReadBackward, CommitCheck, StealthCheck, BackwardOutcome, Kept;
    held, outcome := all, Failed(Undecodable);
    var read := ReadBackward(node, message);
    if read.Some? {
      var (commits, outputs, kernels) := read.value;
      if outputs == [] {
        outcome := Panicked;
      } else {
        held := Kept(node.peel, all, commits);
        KeptPart(node.peel, all, commits);
        outcome := Failed(CommitInvariant);
        if CommitCheck(node.peel, held, outputs, kernels) {
          outcome := Failed(StealthInvariant);
          if StealthCheck(node.peel, held, outputs, kernels) {
            outcome := BackwardExists(node, held, outputs, kernels);
          }
        }
      }
    }
  }

  /**
   * Progress: while a call is pending in a round that keeps the invariant, the round can take a step, and
   * one in which no peer is missing.
   */
  lemma StepExists(nodes: seq<Node>, loaded: Held, s: State) returns (t: State)
    requires Topology(nodes) && KeyedByInput(loaded) && Inv(nodes, loaded, s)
    requires s.stage.Forwarding? || s.stage.Backwarding?
    ensures Step(nodes, s, t) && !Unreached(t.stage)
  {
    hide KeyedByInput, ForwardOutcome, BackwardStep, ReadForward, BackwardMessageOf, Forwarded, AgreedFrom, AllPeel,
      Part;
    var i, held, outcome := Serving(s.stage), map[], Ignored;
    match s.stage {
      case Forwarding(_, message) =>
        assert i > 0 && ReadForward(message).Some?;
        held, outcome := ForwardExists(nodes[i], ReadForward(message).value);
      case Backwarding(_, message) =>
        assert PeeledAt(nodes, s.held, i);
        if i == 0 {
          PartKeyed(s.held[0], loaded);
        }
        held, outcome := BackwardStepExists(nodes[i], s.held[i], message);
    }
    t := State(s.held[i := held], StageAfter(outcome, i), s.steps + 1);
    assert t.held[i] == held;
  }

  /** The round can start with any batch. */
  lemma StartExists(nodes: seq<Node>, loaded: Held) returns (s: State)
    requires Topology(nodes) && KeyedByInput(loaded)
    ensures Start(nodes, loaded, s) && !Unreached(s.stage)
  {
    hide KeyedByInput, ForwardOutcome;
    var held, outcome := ForwardExists(nodes[0], loaded);
    s := State(seq(|nodes|, i => if i == 0 then held else map[]), StageAfter(outcome, 0), 1);
  }

  predicate Ended(stage: Stage) { stage.Done? || stage.Aborted? }

  /** The round stopped because a peer could not be called. */
  predicate Unreached(stage: Stage) { stage.Aborted? && stage.failure == Unreachable }

  /** Every run that has not ended is the beginning of one that ends, and not for want of a peer. */
  lemma {:induction false} RunEnds(nodes: seq<Node>, loaded: Held, run: seq<State>) returns (whole: seq<State>)
    requires Topology(nodes) && KeyedByInput(loaded) && Run(nodes, loaded, run)
    ensures Run(nodes, loaded, whole) && run <= whole
    ensures Ended(whole[|whole| - 1].stage)
    ensures Unreached(whole[|whole| - 1].stage) ==> Unreached(run[|run| - 1].stage)
    decreases 2 * |nodes| - |run|
  {
    hide KeyedByInput, Inv, Step, FeeTotal, Start, Settles, Lost;
    whole := run;
    RoundCompletes(nodes, loaded, run);
    RunKeeps(nodes, loaded, run, |run| - 1);
    var s := run[|run| - 1];
    if !Ended(s.stage) {
      var t := StepExists(nodes, loaded, s);
      var more := run + [t];
      forall k | 0 <= k < |more| - 1 ensures RunStep(nodes, more[k], more[k + 1]) {
        if k + 1 < |run| {
          assert RunStep(nodes, run[k], run[k + 1]);
        }
      }
      RoundCompletes(nodes, loaded, more);
      whole := RunEnds(nodes, loaded, more);
    }
  }

  /** From any loaded batch there is a run that ends, and not for want of a peer. */
  lemma BatchEnds(nodes: seq<Node>, loaded: Held) returns (run: seq<State>)
    requires Topology(nodes) && KeyedByInput(loaded)
    ensures Run(nodes, loaded, run)
    ensures Ended(run[|run| - 1].stage) && !Unreached(run[|run| - 1].stage)
  {
    hide KeyedByInput, Start, Step, Ended, Unreached;
    var start := StartExists(nodes, loaded);
    run := RunEnds(nodes, loaded, [start]);
  }
}
