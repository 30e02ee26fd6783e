/**
 * The persisted queue under concurrency. Every database operation is atomic; the calls that hold the
 * service's lock run one after the other, the developers' clearing loop runs without the lock.
 */
module Queue {
  import opened Wrappers
  import opened Bytes
  import opened Mweb
  import opened OnionCodec

  type Key = seq<byte>

  datatype Buckets = Buckets(onions: map<Key, Onion>, amounts: map<Key, nat>) {
    /** Every recorded amount belongs to a stored onion. */
    predicate Consistent() { amounts.Keys <= onions.Keys }
  }

  function KeyOf(o: Onion): Key { o.input.commitment }

  function PutOnion(b: Buckets, o: Onion): Buckets { b.(onions := b.onions[KeyOf(o) := o]) }

  function PutAmount(b: Buckets, o: Onion, amount: nat): Buckets { b.(amounts := b.amounts[KeyOf(o) := amount]) }

  function DropAmount(b: Buckets, o: Onion): Buckets { b.(amounts := b.amounts - {KeyOf(o)}) }

  function DropOnion(b: Buckets, o: Onion): Buckets { b.(onions := b.onions - {KeyOf(o)}) }

  /**
   * Where the call that holds the lock stands: about to store an onion, about to record its amount, or
   * about to delete onions one by one (`half`: the amount of the first one is gone, its onion not yet).
   */
  datatype Holder =
    | Idle
    | Storing(o: Onion, record: Option<uint64>)
    | Recording(o: Onion, amount: uint64)
    | Deleting(todo: seq<Onion>, half: bool)

  /** The queue, the lock holder, and the clearing loops under way. */
  datatype QueueState = QueueState(db: Buckets, holder: Holder, clearing: seq<Clearing>)

  datatype Clearing = Clearing(todo: seq<Onion>, half: bool)

  const Empty: QueueState := QueueState(Buckets(map[], map[]), Idle, [])

  /** One deletion step: the amount of the first onion, then the onion. */
  ghost predicate DeletionStep(
    b: Buckets, todo: seq<Onion>, half: bool, b': Buckets, todo': seq<Onion>, half': bool) {
    && todo != []
    && if half then b' == DropOnion(b, todo[0]) && todo' == todo[1..] && !half'
       else b' == DropAmount(b, todo[0]) && todo' == todo && half'
  }

  /**
   * `deleteOnion` in steps: both transactions work, or the first fails, or the second. An error leaves
   * nothing done or only the amount deleted.
   */
  ghost predicate DeletedBy(b: Buckets, o: Onion, b': Buckets, ok: bool) {
    if ok then
      DeletionStep(b, [o], false, DropAmount(b, o), [o], true)
        && DeletionStep(DropAmount(b, o), [o], true, b', [], false)
    else
      b' == b || DeletionStep(b, [o], false, b', [o], true)
  }

  /** The onions under `gone` and the amounts under `half` have been deleted. */
  predicate Without(b: Buckets, gone: set<Key>, half: set<Key>, b': Buckets) {
    b' == Buckets(b.onions - gone, b.amounts - half)
  }

  /**
   * Onions under some of these keys have been deleted with their amounts, at most one amount without
   * its onion besides, and nothing else; everything under the keys if `done`.
   */
  ghost predicate Removed(b: Buckets, keys: set<Key>, done: bool, b': Buckets) {
    exists gone, half :: AllBut(gone, half, keys) && Without(b, gone, half, b') && (done ==> gone == keys)
  }

  ghost predicate AllBut(gone: set<Key>, half: set<Key>, keys: set<Key>) {
    gone <= half <= keys && forall k, l :: k in half && k !in gone && l in half && l !in gone ==> k == l
  }

  lemma NothingRemoved(b: Buckets)
    ensures forall done :: Removed(b, {}, done, b)
    ensures forall keys :: Removed(b, keys, false, b)
  {
    assert b.onions - {} == b.onions && b.amounts - {} == b.amounts;
    assert Without(b, {}, {}, b);
  }

  /** One more deletion after some that were complete. */
  lemma OneMoreRemoved(b: Buckets, keys: set<Key>, b1: Buckets, o: Onion, b2: Buckets, ok: bool)
    requires Without(b, keys, keys, b1) && DeletedBy(b1, o, b2, ok)
    ensures ok ==> Without(b, keys + {KeyOf(o)}, keys + {KeyOf(o)}, b2)
    ensures forall all: set<Key> :: keys + {KeyOf(o)} <= all ==> Removed(b, all, false, b2)
  {
    var k := KeyOf(o);
    assert b.onions - keys - {k} == b.onions - (keys + {k}) && b.amounts - keys - {k} == b.amounts - (keys + {k});
    if b2 == b1 {
      assert Without(b, keys, keys, b2);
    } else if !ok {
      assert Without(b, keys, keys + {k}, b2);
    } else {
      assert Without(b, keys + {k}, keys + {k}, b2);
    }
  }

  /** Deletions, complete or not, leave recorded amounts with stored onions only. */
  lemma RemovalKeepsConsistent(b: Buckets, keys: set<Key>, done: bool, b': Buckets)
    requires b.Consistent() && Removed(b, keys, done, b')
    ensures b'.Consistent()
  {
    var gone, half :| AllBut(gone, half, keys) && Without(b, gone, half, b') && (done ==> gone == keys);
  }

  lemma DoneMeansAll(b: Buckets, keys: set<Key>, b': Buckets)
    requires Removed(b, keys, true, b')
    ensures b' == Buckets(b.onions - keys, b.amounts - keys)
  {
  }

  /** The steps of the lock holder; a database failure ends a call, or starts the rollback. */
  ghost predicate HolderStep(s: QueueState, t: QueueState) {
    && t.clearing == s.clearing
    && match s.holder
       case Idle =>
         && t.db == s.db
         && (t.holder.Storing? || (t.holder.Deleting? && !t.holder.half))
       case Storing(o, amount) =>
         || (t.db == s.db && t.holder == Idle)
         || (t.db == PutOnion(s.db, o) && t.holder == if amount.Some? then Recording(o, amount.value) else Idle)
       case Recording(o, amount) =>
         if amount == 0 then t.db == s.db && t.holder == Idle
         else || (t.db == PutAmount(s.db, o, amount) && t.holder == Idle)
              || (t.db == s.db && t.holder == Deleting([o], false))
       case Deleting(todo, half) =>
         || (t.db == s.db && t.holder == Idle)
         || (t.holder.Deleting? && DeletionStep(s.db, todo, half, t.db, t.holder.todo, t.holder.half))
  }

  /** The clearing loops: a new one lists what is stored, the others delete what they listed. */
  ghost predicate ClearStep(s: QueueState, t: QueueState) {
    && t.holder == s.holder
    && (|| (&& t.db == s.db && |t.clearing| == |s.clearing| + 1 && t.clearing[..|s.clearing|] == s.clearing
            && !t.clearing[|s.clearing|].half
            && forall o :: o in t.clearing[|s.clearing|].todo ==> o in s.db.onions.Values)
        || exists i :: ClearsOne(s, t, i))
  }

  ghost predicate ClearsOne(s: QueueState, t: QueueState, i: nat) {
    && i < |s.clearing| == |t.clearing|
    && t.clearing == s.clearing[i := t.clearing[i]]
    && DeletionStep(s.db, s.clearing[i].todo, s.clearing[i].half, t.db, t.clearing[i].todo, t.clearing[i].half)
  }

  ghost predicate QueueStep(devClear: bool, s: QueueState, t: QueueState) {
    HolderStep(s, t) || (devClear && ClearStep(s, t))
  }

  ghost predicate QueueRun(devClear: bool, run: seq<QueueState>) {
    && run != [] && run[0] == Empty
    && forall i :: 0 <= i < |run| - 1 ==> QueueStep(devClear, run[i], run[i + 1])
  }

  /** What the lock protects: only the holder changes the buckets. */
  ghost predicate QueueInv(s: QueueState) {
    && s.db.Consistent()
    && (s.holder.Recording? ==> KeyOf(s.holder.o) in s.db.onions)
    && (s.holder.Deleting? && s.holder.half && s.holder.todo != [] ==> KeyOf(s.holder.todo[0]) !in s.db.amounts)
  }

  lemma HolderKeeps(s: QueueState, t: QueueState)
    requires QueueInv(s) && HolderStep(s, t)
    ensures QueueInv(t)
  {
  }

  lemma {:induction false} LockedRunKeeps(run: seq<QueueState>, k: nat)
    requires QueueRun(false, run) && k < |run|
    ensures QueueInv(run[k])
  {
    hide HolderStep, QueueInv;
    if k == 0 {
      EmptyInv();
    } else {
      LockedRunKeeps(run, k - 1);
      assert QueueStep(false, run[k - 1], run[k - 1 + 1]);
      HolderKeeps(run[k - 1], run[k]);
    }
  }

  lemma EmptyInv()
    ensures QueueInv(Empty)
  {
  }

  /**
   * A run with the clearing loop that ends with an amount that belongs to no onion: the loop lists the
   * onion between the moment it is stored and the moment its amount is recorded.
   */
  function Orphaning(o: Onion): seq<QueueState> {
    var stored := Buckets(map[KeyOf(o) := o], map[]);
    var recorded := Buckets(map[KeyOf(o) := o], map[KeyOf(o) := 1]);
    var orphaned := Buckets(map[], map[KeyOf(o) := 1]);
    [Empty,
     QueueState(Buckets(map[], map[]), Storing(o, Some(1)), []),
     QueueState(stored, Recording(o, 1), []),
     QueueState(stored, Recording(o, 1), [Clearing([o], false)]),
     QueueState(stored, Recording(o, 1), [Clearing([o], true)]),
     QueueState(recorded, Idle, [Clearing([o], true)]),
     QueueState(orphaned, Idle, [Clearing([], false)])]
  }

  lemma OrphaningRuns(o: Onion)
    ensures QueueRun(true, Orphaning(o))
    ensures !Orphaning(o)[6].db.Consistent()
  {
    var run := Orphaning(o);
    assert HolderStep(run[0], run[1]) && HolderStep(run[1], run[2]);
    assert o in run[2].db.onions.Values by {
      assert run[2].db.onions[KeyOf(o)] == o;
    }
    assert ClearStep(run[2], run[3]);
    assert run[3].db.amounts - {KeyOf(o)} == map[];
    assert ClearsOne(run[3], run[4], 0);
    assert HolderStep(run[4], run[5]);
    assert run[5].db.onions - {KeyOf(o)} == map[];
    assert ClearsOne(run[5], run[6], 0);
    assert KeyOf(o) in run[6].db.amounts.Keys;
  }

  /* Which runs are consistent */

  /** An amount is recorded whose onion is not stored, or no longer. */
  ghost predicate RecordsLate(s: QueueState, t: QueueState) {
    s.holder.Recording? && KeyOf(s.holder.o) !in s.db.onions && t.db == PutAmount(s.db, s.holder.o, s.holder.amount)
  }

  /** An onion is deleted whose amount is recorded, still or again. */
  ghost predicate DropsEarly(s: QueueState, t: QueueState) {
    exists o :: KeyOf(o) in s.db.onions && KeyOf(o) in s.db.amounts && t.db == DropOnion(s.db, o)
  }

  lemma BreaksExactly(devClear: bool, s: QueueState, t: QueueState)
    requires QueueStep(devClear, s, t) && s.db.Consistent()
    ensures t.db.Consistent() <==> !RecordsLate(s, t) && !DropsEarly(s, t)
  {
    if DropsEarly(s, t) {
      var o :| KeyOf(o) in s.db.onions && KeyOf(o) in s.db.amounts && t.db == DropOnion(s.db, o);
      assert KeyOf(o) in t.db.amounts.Keys;
    } else if RecordsLate(s, t) {
      assert KeyOf(s.holder.o) in t.db.amounts.Keys;
    } else if devClear && ClearStep(s, t) && !HolderStep(s, t) && t.db != s.db {
      var i: nat :| ClearsOne(s, t, i);
      DeletionConsistent(s, t, s.clearing[i].todo, s.clearing[i].half, t.clearing[i].todo, t.clearing[i].half);
    } else if s.holder.Deleting? && t.db != s.db {
      DeletionConsistent(s, t, s.holder.todo, s.holder.half, t.holder.todo, t.holder.half);
    }
  }

  lemma DeletionConsistent(s: QueueState, t: QueueState, todo: seq<Onion>, half: bool, todo': seq<Onion>, half': bool)
    requires s.db.Consistent() && !DropsEarly(s, t) && DeletionStep(s.db, todo, half, t.db, todo', half')
    ensures t.db.Consistent()
  {
    assert KeyOf(todo[0]) !in s.db.onions ==> s.db.onions - {KeyOf(todo[0])} == s.db.onions;
  }

  /** Which runs are consistent throughout, the clearing loop on or off: those without such a step. */
  lemma RunConsistentExactly(devClear: bool, run: seq<QueueState>)
    requires QueueRun(devClear, run)
    ensures (forall k :: 0 <= k < |run| ==> run[k].db.Consistent())
       <==> forall k :: 0 <= k < |run| - 1 ==> !RecordsLate(run[k], run[k + 1]) && !DropsEarly(run[k], run[k + 1])
  {
    hide QueueStep, RecordsLate, DropsEarly;
    if forall k :: 0 <= k < |run| - 1 ==> !RecordsLate(run[k], run[k + 1]) && !DropsEarly(run[k], run[k + 1]) {
      for k := 1 to |run|
        invariant forall j :: 0 <= j < k ==> run[j].db.Consistent()
      {
        assert QueueStep(devClear, run[k - 1], run[k - 1 + 1]);
        BreaksExactly(devClear, run[k - 1], run[k]);
      }
    }
    if forall k :: 0 <= k < |run| ==> run[k].db.Consistent() {
      forall k | 0 <= k < |run| - 1 ensures !RecordsLate(run[k], run[k + 1]) && !DropsEarly(run[k], run[k + 1]) {
        BreaksExactly(devClear, run[k], run[k + 1]);
      }
    }
  }

  /* Calls as runs */

  ghost predicate Leads(devClear: bool, run: seq<QueueState>, s: QueueState, t: QueueState) {
    && run != [] && run[0] == s && run[|run| - 1] == t
    && forall i :: 0 <= i < |run| - 1 ==> QueueStep(devClear, run[i], run[i + 1])
  }

  ghost predicate Reaches(devClear: bool, s: QueueState, t: QueueState) {
    exists run :: Leads(devClear, run, s, t)
  }

  /** Steps of the lock holder lead from one moment at which the lock is free to another. */
  ghost predicate ByHolder(b: Buckets, b': Buckets) {
    Reaches(false, QueueState(b, Idle, []), QueueState(b', Idle, []))
  }

  /** Steps of clearing loops lead from these buckets to those. */
  ghost predicate ByClearing(b: Buckets, b': Buckets) {
    exists clearing :: Reaches(true, QueueState(b, Idle, []), QueueState(b', Idle, clearing))
  }

  lemma ReachesSelf(devClear: bool, s: QueueState)
    ensures Reaches(devClear, s, s)
  {
    assert Leads(devClear, [s], s, s);
  }

  lemma StaysIsHolder(b: Buckets)
    ensures ByHolder(b, b)
  {
    ReachesSelf(false, QueueState(b, Idle, []));
  }

  lemma HolderGoesOn(b: Buckets, b1: Buckets, b2: Buckets)
    requires ByHolder(b, b1) && ByHolder(b1, b2)
    ensures ByHolder(b, b2)
  {
    ReachesOn(false, QueueState(b, Idle, []), QueueState(b1, Idle, []), QueueState(b2, Idle, []));
  }

  lemma ReachesOn(devClear: bool, s: QueueState, t: QueueState, u: QueueState)
    requires Reaches(devClear, s, t) && Reaches(devClear, t, u)
    ensures Reaches(devClear, s, u)
  {
    hide QueueStep;
    var run :| Leads(devClear, run, s, t);
    var more :| Leads(devClear, more, t, u);
    var whole := run + more[1..];
    forall i | 0 <= i < |whole| - 1 ensures QueueStep(devClear, whole[i], whole[i + 1]) {
      if i >= |run| - 1 {
        assert whole[i] == more[i - (|run| - 1)] && whole[i + 1] == more[i + 1 - (|run| - 1)];
      }
    }
    assert Leads(devClear, whole, s, u);
  }

  /** What the lock protects is kept by any such run. */
  lemma {:induction false} ReachesKeeps(run: seq<QueueState>, s: QueueState, t: QueueState)
    requires Leads(false, run, s, t) && QueueInv(s)
    ensures QueueInv(t)
  {
    hide HolderStep, QueueInv;
    if |run| > 1 {
      assert QueueStep(false, run[0], run[1]);
      HolderKeeps(run[0], run[1]);
      ReachesKeeps(run[1..], run[1], t);
    }
  }

  /** Calls that are runs of the lock holder keep recorded amounts with stored onions. */
  lemma HolderKeepsConsistent(b: Buckets, b': Buckets)
    requires b.Consistent() && ByHolder(b, b')
    ensures b'.Consistent()
  {
    hide QueueStep;
    var run :| Leads(false, run, QueueState(b, Idle, []), QueueState(b', Idle, []));
    ReachesKeeps(run, QueueState(b, Idle, []), QueueState(b', Idle, []));
  }

  lemma StoringIsHolder(b: Buckets, o: Onion)
    ensures ByHolder(b, PutOnion(b, o))
  {
    var run := [QueueState(b, Idle, []), QueueState(b, Storing(o, None), []), QueueState(PutOnion(b, o), Idle, [])];
    assert Leads(false, run, run[0], run[2]);
  }

  /** Storing and recording; an amount of zero is skipped. */
  lemma RecordingIsHolder(b: Buckets, o: Onion, amount: uint64)
    ensures ByHolder(b, if amount > 0 then PutAmount(PutOnion(b, o), o, amount) else PutOnion(b, o))
  {
    var stored := PutOnion(b, o);
    var recorded := if amount > 0 then PutAmount(stored, o, amount) else stored;
    var run := [QueueState(b, Idle, []), QueueState(b, Storing(o, Some(amount)), []),
                QueueState(stored, Recording(o, amount), []), QueueState(recorded, Idle, [])];
    assert Leads(false, run, run[0], run[3]);
  }

  /** Storing, failing to record, and taking back, which may fail as well. */
  lemma RollbackIsHolder(b: Buckets, o: Onion, amount: uint64, b': Buckets, ok: bool)
    requires amount > 0 && DeletedBy(PutOnion(b, o), o, b', ok)
    ensures ByHolder(b, b')
  {
    var stored := PutOnion(b, o);
    var run := [QueueState(b, Idle, []), QueueState(b, Storing(o, Some(amount)), []),
                QueueState(stored, Recording(o, amount), []), QueueState(stored, Deleting([o], false), [])];
    assert Leads(false, run, run[0], run[3]);
    DeletingIsHolder(stored, o, b', ok);
    ReachesOn(false, run[0], run[3], QueueState(b', Idle, []));
  }

  lemma DeletingIsHolder(b: Buckets, o: Onion, b': Buckets, ok: bool)
    requires DeletedBy(b, o, b', ok)
    ensures Reaches(false, QueueState(b, Deleting([o], false), []), QueueState(b', Idle, []))
  {
    var first := QueueState(b, Deleting([o], false), []);
    var second := QueueState(DropAmount(b, o), Deleting([o], true), []);
    var run := if ok then [first, second, QueueState(b', Deleting([], false), []), QueueState(b', Idle, [])]
               else if b' == b then [first, QueueState(b', Idle, [])]
               else [first, second, QueueState(b', Idle, [])];
    assert Leads(false, run, first, QueueState(b', Idle, []));
  }

  lemma DeletionIsHolder(b: Buckets, o: Onion, b': Buckets, ok: bool)
    requires DeletedBy(b, o, b', ok)
    ensures ByHolder(b, b')
  {
    DeletingIsHolder(b, o, b', ok);
    var run := [QueueState(b, Idle, []), QueueState(b, Deleting([o], false), [])];
    assert Leads(false, run, run[0], run[1]);
    ReachesOn(false, run[0], run[1], QueueState(b', Idle, []));
  }

  function OnionUnder(k: Key): (o: Onion)
    ensures KeyOf(o) == k
  {
    Onion(EmptyInput.(commitment := k), [], [], [])
  }

  /** Complete deletions, one after the other. */
  lemma {:induction false} DeletionsAreHolder(b: Buckets, gone: set<Key>)
    ensures ByHolder(b, Buckets(b.onions - gone, b.amounts - gone))
    decreases |gone|
  {
    hide Reaches, DeletionStep;
    if gone == {} {
      assert b.onions - gone == b.onions && b.amounts - gone == b.amounts;
      ReachesSelf(false, QueueState(b, Idle, []));
    } else {
      var k :| k in gone;
      var b1, rest := DropOnion(DropAmount(b, OnionUnder(k)), OnionUnder(k)), gone - {k};
      Deletes(b, k);
      DeletionIsHolder(b, OnionUnder(k), b1, true);
      DeletionsAreHolder(b1, rest);
      assert b1.onions - rest == b.onions - gone && b1.amounts - rest == b.amounts - gone;
      ReachesOn(false, QueueState(b, Idle, []), QueueState(b1, Idle, []),
                QueueState(Buckets(b.onions - gone, b.amounts - gone), Idle, []));
    }
  }

  lemma Deletes(b: Buckets, k: Key)
    ensures DeletedBy(b, OnionUnder(k), DropOnion(DropAmount(b, OnionUnder(k)), OnionUnder(k)), true)
    ensures DeletedBy(b, OnionUnder(k), DropAmount(b, OnionUnder(k)), false)
  {
  }

  /** What a loop of deletions leaves is what the lock holder's steps can leave. */
  lemma RemovalIsHolder(b: Buckets, keys: set<Key>, done: bool, b': Buckets)
    requires Removed(b, keys, done, b')
    ensures ByHolder(b, b')
  {
    hide Reaches, DeletionStep, DeletedBy;
    var gone, half :| AllBut(gone, half, keys) && Without(b, gone, half, b') && (done ==> gone == keys);
    var b1 := Buckets(b.onions - gone, b.amounts - gone);
    DeletionsAreHolder(b, gone);
    if half != gone {
      var k := OneMore(gone, half, keys);
      assert DropAmount(b1, OnionUnder(k)) == b' by { assert b.amounts - gone - {k} == b.amounts - half; }
      Deletes(b1, k);
      DeletionIsHolder(b1, OnionUnder(k), b', false);
      ReachesOn(false, QueueState(b, Idle, []), QueueState(b1, Idle, []), QueueState(b', Idle, []));
    }
  }

  lemma OneMore(gone: set<Key>, half: set<Key>, keys: set<Key>) returns (k: Key)
    requires AllBut(gone, half, keys) && half != gone
    ensures k in half && k !in gone && half == gone + {k}
  {
    k :| k in half && k !in gone;
  }

  /** The clearing loop has got past the onions `done`. */
  lemma {:induction false} ClearsOn(b: Buckets, done: seq<Onion>, todo: seq<Onion>)
    ensures Reaches(true, QueueState(b, Idle, [Clearing(done + todo, false)]),
                    QueueState(Cleared(b, done), Idle, [Clearing(todo, false)]))
    decreases |done|
  {
    if done == [] {
      assert done + todo == todo;
      ReachesSelf(true, QueueState(b, Idle, [Clearing(todo, false)]));
    } else {
      var all, rest := done + todo, done[1..] + todo;
      assert all[0] == done[0] && all[1..] == rest;
      var b1 := DropOnion(DropAmount(b, done[0]), done[0]);
      var run := [QueueState(b, Idle, [Clearing(all, false)]),
                  QueueState(DropAmount(b, done[0]), Idle, [Clearing(all, true)]),
                  QueueState(b1, Idle, [Clearing(rest, false)])];
      assert ClearsOne(run[0], run[1], 0) && ClearsOne(run[1], run[2], 0);
      assert Leads(true, run, run[0], run[2]);
      ClearsOn(b1, done[1..], todo);
      hide QueueStep;
      ReachesOn(true, run[0], run[2], QueueState(Cleared(b, done), Idle, [Clearing(todo, false)]));
    }
  }

  function Cleared(b: Buckets, done: seq<Onion>): Buckets
    decreases |done|
  {
    if done == [] then b else Cleared(DropOnion(DropAmount(b, done[0]), done[0]), done[1..])
  }

  lemma {:induction false} ListOf(b: Buckets, keys: set<Key>) returns (list: seq<Onion>)
    requires keys <= b.onions.Keys && forall k :: k in b.onions ==> KeyOf(b.onions[k]) == k
    ensures forall o :: o in list ==> o in b.onions.Values
    ensures Cleared(b, list) == Buckets(b.onions - keys, b.amounts - keys)
    decreases |keys|
  {
    list := [];
    if keys == {} {
      assert b.onions - keys == b.onions && b.amounts - keys == b.amounts;
    } else {
      var k :| k in keys;
      var o := b.onions[k];
      var b1 := DropOnion(DropAmount(b, o), o);
      var more := ListOf(b1, keys - {k});
      assert b1.onions - (keys - {k}) == b.onions - keys && b1.amounts - (keys - {k}) == b.amounts - keys;
      list := [o] + more;
      assert list[0] == o && list[1..] == more;
      forall x | x in list ensures x in b.onions.Values {
        if x in more {
          assert x in b1.onions.Values;
          var l :| l in b1.onions && b1.onions[l] == x;
          assert l in b.onions && b.onions[l] == x;
        }
      }
    }
  }

  /** What the clearing loop leaves of the stored onions is what its steps can leave. */
  lemma RemovalIsClearing(b: Buckets, done: bool, b': Buckets)
    requires forall k :: k in b.onions ==> KeyOf(b.onions[k]) == k
    requires Removed(b, b.onions.Keys, done, b')
    ensures ByClearing(b, b')
  {
    hide Cleared;
    var keys := b.onions.Keys;
    var gone, half :| AllBut(gone, half, keys) && Without(b, gone, half, b') && (done ==> gone == keys);
    var list := ListOf(b, gone);
    var b1 := Cleared(b, list);
    var todo := [];
    if half != gone {
      var k := OneMore(gone, half, keys);
      todo := [b.onions[k]];
      assert b1.amounts - {k} == b'.amounts;
    }
    StartsClearing(b, list + todo);
    ClearsOn(b, list, todo);
    var s, t := QueueState(b, Idle, []), QueueState(b1, Idle, [Clearing(todo, false)]);
    hide Reaches;
    ReachesOn(true, s, QueueState(b, Idle, [Clearing(list + todo, false)]), t);
    if half != gone {
      ClearsHalf(b1, todo[0]);
      ReachesOn(true, s, t, QueueState(b', Idle, [Clearing(todo, true)]));
    }
  }

  lemma StartsClearing(b: Buckets, todo: seq<Onion>)
    requires forall o :: o in todo ==> o in b.onions.Values
    ensures Reaches(true, QueueState(b, Idle, []), QueueState(b, Idle, [Clearing(todo, false)]))
  {
    var run := [QueueState(b, Idle, []), QueueState(b, Idle, [Clearing(todo, false)])];
    assert ClearStep(run[0], run[1]);
    assert Leads(true, run, run[0], run[1]);
  }

  lemma ClearsHalf(b: Buckets, o: Onion)
    ensures Reaches(true, QueueState(b, Idle, [Clearing([o], false)]),
                    QueueState(DropAmount(b, o), Idle, [Clearing([o], true)]))
  {
    var run := [QueueState(b, Idle, [Clearing([o], false)]),
                QueueState(DropAmount(b, o), Idle, [Clearing([o], true)])];
    assert ClearsOne(run[0], run[1], 0);
    assert Leads(true, run, run[0], run[1]);
  }

  /** Every state of every run is consistent. */
  ghost predicate AlwaysConsistent(devClear: bool) {
    forall run: seq<QueueState>, k: nat {:trigger QueueRun(devClear, run), run[k]} ::
      QueueRun(devClear, run) && k < |run| ==> run[k].db.Consistent()
  }

  /**
   * At every step of every interleaving the recorded amounts belong to stored onions, if and only if
   * the developers' clearing loop is switched off.
   */
  lemma ConsistentIffLocked(devClear: bool)
    ensures AlwaysConsistent(devClear) <==> !devClear
  {
    if devClear {
      var o := Onion(EmptyInput, [], [], []);
      OrphaningRuns(o);
      assert |Orphaning(o)| == 7;
    } else {
      forall run: seq<QueueState>, k: nat | QueueRun(false, run) && k < |run| ensures run[k].db.Consistent() {
        LockedRunKeeps(run, k);
      }
    }
  }
}
