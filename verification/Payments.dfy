/** Who is paid: whose destinations the outputs of a finished transaction are, and what the operators get. */
module Payments {
  import opened Wrappers
  import opened Curve
  import opened Bytes
  import opened Sums
  import opened Mweb
  import opened SwapSpec
  import opened Balance
  import opened Round
  import opened RoundTheorems
  import opened Ledger

  /** Where an onion held at node j is paid out: the output that its last hop carries. */
  ghost function Destination(nodes: seq<Node>, held: seq<Held>, j: nat, c: Point): Option<MwebOutput>
    requires j < |nodes| == |held|
    decreases |nodes| - j
  {
    if c !in held[j] || !Peels(nodes[j].peel, held[j][c]) then None
    else if j + 1 < |nodes| then Destination(nodes, held, j + 1, Next(nodes[j].peel, c, held[j][c]))
    else HopOf(nodes[j].peel, held[j][c]).output
  }

  /** These outputs are the destinations of all onions held at node j, in this order. */
  ghost predicate PaidOut(nodes: seq<Node>, held: seq<Held>, j: nat, order: seq<Point>, dest: seq<MwebOutput>) {
    && j < |nodes| == |held|
    && Visits(order, held[j].Keys)
    && |dest| == |order|
    && forall i :: 0 <= i < |order| ==> Destination(nodes, held, j, order[i]) == Some(dest[i])
  }

  lemma {:induction false} DistinctVisits<T>(order: seq<T>, s: set<T>)
    requires |order| == |s| && forall x :: x in order ==> x in s
    requires forall i, j :: 0 <= i < j < |order| ==> order[i] != order[j]
    ensures Visits(order, s)
  {
    if order != [] {
      var last := |order| - 1;
      var front, x := order[..last], order[last];
      assert order == front + [x];
      DistinctVisits(front, s - {x});
      VisitsMore(front, s - {x}, x);
      assert s - {x} + {x} == s;
    }
  }

  ghost function Source(peel: Peeler, held: Held, d: Point): (c: Point)
    requires AllPeel(peel, held) && d in NextKeys(peel, held)
    ensures c in held && Next(peel, c, held[c]) == d
  {
    var c :| c in held && Next(peel, c, held[c]) == d;
    c
  }

  /** An order of the next batch, followed back to the onions that it came from. */
  lemma FollowBack(peel: Peeler, held: Held, next: Held, order: seq<Point>) returns (back: seq<Point>)
    requires AllPeel(peel, held) && Linked(peel, held, next) && Visits(order, next.Keys)
    ensures Visits(back, held.Keys) && |back| == |order|
    ensures forall i :: 0 <= i < |order| ==> back[i] in held && Next(peel, back[i], held[back[i]]) == order[i]
  {
    hide Visits, NextOnion, Next;
    VisitsElements(order, next.Keys);
    LinkedCount(peel, held, next);
    assert forall i :: 0 <= i < |order| ==> order[i] in order;
    back := seq(|order|, i requires 0 <= i < |order| => Source(peel, held, order[i]));
    assert |held.Keys| == |held| && |next.Keys| == |next|;
    DistinctVisits(back, held.Keys);
  }

  lemma {:induction false} PaidFrom(
    nodes: seq<Node>, held: seq<Held>, j: nat, m: nat, order: seq<Point>, dest: seq<MwebOutput>)
    returns (back: seq<Point>)
    requires j < |nodes| == |held| && AgreedFrom(nodes, held, j, m)
    requires Visits(order, held[|nodes| - 1].Keys) && Outputs(nodes[|nodes| - 1].peel, held[|nodes| - 1], order, dest)
    ensures PaidOut(nodes, held, j, back, dest)
    decreases |nodes| - j
  {
    hide Visits, Next, OneToOne, Linked, CountAt, SettledAt;
    assert PeeledAt(nodes, held, j);
    if j + 1 == |nodes| {
      back := order;
    } else {
      var rest := PaidFrom(nodes, held, j + 1, m, order, dest);
      assert LinkedAt(nodes, held, j);
      back := FollowBack(nodes[j].peel, held[j], held[j + 1], rest);
    }
  }

  /** What operator j gets at `feeAddress`: what its 64-bit fee sum comes to beyond the share its kernel pays. */
  ghost predicate OperatorPaid(
    nodes: seq<Node>, held: seq<Held>, j: nat, share: nat, value: nat, key: Bytes32, own: MwebOutput)
  {
    && j < |nodes| == |held|
    && value + share == FeeTotal(nodes[j].peel, held[j]) % U64
    && own == CreateOutput(value, feeAddress, key).0
  }

  /** The outputs are the destinations of all survivors of node 0, sound, and one output for every operator. */
  ghost predicate FullyPaid(
    nodes: seq<Node>, held: seq<Held>, tx: MwebTx, order: seq<Point>, dest: seq<MwebOutput>, share: nat,
    values: seq<nat>, keys: seq<Bytes32>, own: seq<MwebOutput>)
  {
    && PaidOut(nodes, held, 0, order, dest)
    && (forall o :: o in dest ==> Sound(o))
    && |own| == |values| == |keys| == |nodes|
    && (forall j :: 0 <= j < |nodes| ==> OperatorPaid(nodes, held, j, share, values[j], keys[j], own[j]))
    && (forall kernel :: kernel in tx.kernels ==> kernel.fee == share)
    && multiset(tx.outputs) == multiset(dest + own)
  }

  /**
   * Whom a finished round pays, for any number of nodes, any batch, any drops and any fees: the outputs
   * of the transaction are the destination of every onion whose input it spends, each with proofs that
   * verify, and for every operator one output to `feeAddress` of what the fees came to beyond its share.
   */
  lemma FinishedPays(nodes: seq<Node>, loaded: Held, run: seq<State>, tx: MwebTx)
    returns (order: seq<Point>, dest: seq<MwebOutput>, values: seq<nat>, keys: seq<Bytes32>, own: seq<MwebOutput>)
    requires Topology(nodes) && Run(nodes, loaded, run) && run[|run| - 1].stage == Done(tx)
    ensures var held := run[|run| - 1].held;
            && |held| == |nodes| && Spends(held[0], tx.inputs)
            && FullyPaid(nodes, held, tx, order, dest, nodes[0].share(|held[0]| + |nodes|), values, keys, own)
  {
    hide Visits, Outputs, PeeledAt, LinkedAt, SettledAt, Balanced, StealthBalanced, Spends, Step, Start, EnteredAs,
      FullyPaid;
    RunNonempty(nodes, loaded, run);
    RunKeeps(nodes, loaded, run, |run| - 1);
    RunLedger(nodes, loaded, run, |run| - 1);
    var held := run[|run| - 1].held;
    var share := nodes[0].share(|held[0]| + |nodes|);
    var last;
    last, dest, values, keys :| EnteredAs(nodes, held, 0, share, tx.outputs, last, dest, values, keys);
    order, own := EnteredPays(nodes, held, |held[0]|, share, tx, last, dest, values, keys);
  }

  lemma EnteredPays(
    nodes: seq<Node>, held: seq<Held>, m: nat, share: nat, tx: MwebTx, last: seq<Point>, dest: seq<MwebOutput>,
    values: seq<nat>, keys: seq<Bytes32>)
    returns (order: seq<Point>, own: seq<MwebOutput>)
    requires |nodes| == |held| && EnteredAs(nodes, held, 0, share, tx.outputs, last, dest, values, keys)
    requires AgreedFrom(nodes, held, 0, m) && forall kernel :: kernel in tx.kernels ==> kernel.fee == share
    ensures FullyPaid(nodes, held, tx, order, dest, share, values, keys, own)
  {
    hide FeeTotal, Visits, Outputs, AgreedFrom, PaidOut, Sound, CreateOutput;
    order := PaidFrom(nodes, held, 0, m, last, dest);
    own := Owned(values, keys);
    forall j | 0 <= j < |nodes| ensures OperatorPaid(nodes, held, j, share, values[j], keys[j], own[j]) {
      assert EarnedAt(nodes, held, 0 + j, share + values[j]);
    }
  }
}
