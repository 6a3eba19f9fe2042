/**
 Runs of the negative memo, forgets included. The memo is the ordered-list cache, and evicts what
 was least recently written, as long as every write is clean; one write that is not breaks it.
 */
module NegativeMemoRuns {
  import opened Common
  import opened ArtworkTypes
  import opened NegativeMemo
  import opened NegativeMemoRefinement

  /** Every write of the run is clean when it happens. */
  ghost predicate CleanRun(capacity: nat, ops: seq<Op>) {
    ops == [] ||
    (var before, op := ops[..|ops| - 1], ops[|ops| - 1];
     CleanRun(capacity, before) && (op.PutOp? ==> CleanPut(Exec(capacity, before), capacity, op.key)))
  }

  ghost predicate ForgetFree(ops: seq<Op>) {
    forall i :: 0 <= i < |ops| ==> !ops[i].ForgetOp?
  }

  /** A write keeps the queue free of repeats exactly when it is clean. */
  lemma PutKeepsQueueDistinctIff(st: Store, capacity: nat, k: Key, e: Entry, pruneAt: nat)
    requires NoDup(st.order)
    ensures NoDup(Put(st, capacity, k, e, pruneAt).order) <==> CleanPut(st, capacity, k)
  {
    WithoutNoDup(st.order, k);
    KeepingNoDup(st.order, FreshEntries(st.entries, pruneAt).Keys);
    EvictNoDup(Prune(st, pruneAt), capacity);
    if k !in st.entries { EvictAddsNothing(Prune(st, pruneAt), capacity, k); }
    AppendNoDup(MakeRoom(st, capacity, k, pruneAt).order, k);
  }

  lemma {:induction false} EvictNoDup(st: Store, capacity: nat)
    requires NoDup(st.order)
    ensures NoDup(EvictOldest(st, capacity).order)
    decreases |st.order|
  {
    if |st.entries| >= capacity && st.order != [] {
      EvictNoDup(Store(st.entries - {st.order[0]}, st.order[1..]), capacity);
    }
  }

  lemma {:induction false} EvictPopsPrefix(st: Store, capacity: nat)
    ensures |EvictOldest(st, capacity).order| <= |st.order|
    ensures EvictOldest(st, capacity).order == st.order[|st.order| - |EvictOldest(st, capacity).order|..]
    decreases |st.order|
  {
    if |st.entries| >= capacity && st.order != [] {
      var next := Store(st.entries - {st.order[0]}, st.order[1..]);
      EvictPopsPrefix(next, capacity);
      var n := |EvictOldest(next, capacity).order|;
      assert next.order[|next.order| - n..] == st.order[|st.order| - n..];
    }
  }

  lemma EvictAddsNothing(st: Store, capacity: nat, k: Key)
    requires k !in st.order
    ensures k !in EvictOldest(st, capacity).order
  {
    EvictPopsPrefix(st, capacity);
  }

  lemma PutStaysTidy(st: Store, capacity: nat, k: Key, e: Entry, pruneAt: nat)
    requires Inv(st, capacity) && Tidy(st) && capacity >= 1 && CleanPut(st, capacity, k)
    ensures Tidy(Put(st, capacity, k, e, pruneAt))
  {
    PutKeepsQueueDistinctIff(st, capacity, k, e, pruneAt);
    PutKeepsInv(st, capacity, k, e, pruneAt);
  }

  /** In every clean run the live memo is the list cache, operation by operation. */
  lemma {:induction false} RefinesListCache(capacity: nat, ops: seq<Op>)
    requires capacity >= 1 && CleanRun(capacity, ops)
    ensures Tidy(Exec(capacity, ops)) && Exact(Live(Exec(capacity, ops)))
    ensures Abs(Live(Exec(capacity, ops))) == ListExec(capacity, ops)
  {
    if ops != [] {
      var before, op := ops[..|ops| - 1], ops[|ops| - 1];
      RunKeepsInv(capacity, before);
      RefinesListCache(capacity, before);
      OneOpRefines(Exec(capacity, before), capacity, op, ListExec(capacity, before));
    }
  }

  lemma OneOpRefines(st: Store, capacity: nat, op: Op, l: Listed)
    requires capacity >= 1 && Inv(st, capacity) && Tidy(st) && Exact(Live(st)) && Abs(Live(st)) == l
    requires op.PutOp? ==> CleanPut(st, capacity, op.key)
    ensures Tidy(Exec1(st, capacity, op)) && Exact(Live(Exec1(st, capacity, op)))
    ensures Abs(Live(Exec1(st, capacity, op))) == ListStep(l, capacity, op)
  {
    match op
    case PutOp(k, e, pruneAt) =>
      PutStaysTidy(st, capacity, k, e, pruneAt);
      LivePut(st, capacity, k, e, pruneAt);
      PutRefines(Live(st), capacity, k, e, pruneAt);
    case GetOp(k, now) =>
      LiveGet(st, k, now);
      GetRefines(Live(st), k, now);
    case ForgetOp(k) =>
      ForgetRefines(st, k);
    case ClearOp =>
  }

  /** In every clean run a lookup answers what the list cache answers. */
  lemma LookupsAgree(capacity: nat, ops: seq<Op>, k: Key, now: nat)
    requires capacity >= 1 && CleanRun(capacity, ops)
    ensures Get(Exec(capacity, ops), k, now).1 == ListAnswer(ListExec(capacity, ops), k, now)
  {
    var st := Exec(capacity, ops);
    RefinesListCache(capacity, ops);
    LiveGet(st, k, now);
    AnswerOf(st.entries, Live(st).order, k, now);
  }

  /** A run that forgets nothing is clean, and its queue holds exactly the keys of the map. */
  lemma {:induction false} ForgetFreeIsClean(capacity: nat, ops: seq<Op>)
    requires capacity >= 1 && ForgetFree(ops)
    ensures CleanRun(capacity, ops) && Exact(Exec(capacity, ops))
  {
    if ops != [] {
      var before, op := ops[..|ops| - 1], ops[|ops| - 1];
      ForgetFreeIsClean(capacity, before);
      assert op == ops[|ops| - 1] && !op.ForgetOp?;
      match op
      case PutOp(k, e, pruneAt) => PutRefines(Exec(capacity, before), capacity, k, e, pruneAt);
      case GetOp(k, now) => GetRefines(Exec(capacity, before), k, now);
      case ClearOp =>
    }
  }

  // ---------------------------------------------------------------------------
  // Write order
  // ---------------------------------------------------------------------------

  /** One more than the position of the last write of `k`, 0 when there is none. */
  ghost function LastWrite(ops: seq<Op>, k: Key): nat {
    if ops == [] then 0
    else if ops[|ops| - 1].PutOp? && ops[|ops| - 1].key == k then |ops|
    else LastWrite(ops[..|ops| - 1], k)
  }

  ghost predicate InWriteOrder(ops: seq<Op>, order: seq<Key>) {
    order == [] ||
    ((forall x :: x in order[1..] ==> LastWrite(ops, order[0]) < LastWrite(ops, x)) && InWriteOrder(ops, order[1..]))
  }

  lemma {:induction false} LastWriteBound(ops: seq<Op>, k: Key)
    ensures LastWrite(ops, k) <= |ops|
  {
    if ops != [] { LastWriteBound(ops[..|ops| - 1], k); }
  }

  /** Filtering or popping a queue in write order leaves it in write order. */
  lemma {:induction false} WithoutInOrder(ops: seq<Op>, order: seq<Key>, k: Key)
    requires InWriteOrder(ops, order)
    ensures InWriteOrder(ops, Without(order, k))
  {
    if order != [] { WithoutInOrder(ops, order[1..], k); }
  }

  lemma {:induction false} KeepingInOrder(ops: seq<Op>, order: seq<Key>, live: set<Key>)
    requires InWriteOrder(ops, order)
    ensures InWriteOrder(ops, Keeping(order, live))
  {
    if order != [] { KeepingInOrder(ops, order[1..], live); }
  }

  lemma {:induction false} EvictInOrder(ops: seq<Op>, st: Store, capacity: nat)
    requires InWriteOrder(ops, st.order)
    ensures InWriteOrder(ops, EvictOldest(st, capacity).order)
    decreases |st.order|
  {
    if |st.entries| >= capacity && st.order != [] {
      EvictInOrder(ops, Store(st.entries - {st.order[0]}, st.order[1..]), capacity);
    }
  }

  /** A write keeps the queue in write order exactly when it is clean. */
  lemma PutKeepsWriteOrderIff(capacity: nat, before: seq<Op>, k: Key, e: Entry, pruneAt: nat)
    requires InWriteOrder(before, Exec(capacity, before).order)
    ensures InWriteOrder(before + [PutOp(k, e, pruneAt)], Put(Exec(capacity, before), capacity, k, e, pruneAt).order)
            <==> CleanPut(Exec(capacity, before), capacity, k)
  {
    var st, op := Exec(capacity, before), PutOp(k, e, pruneAt);
    var room := MakeRoom(st, capacity, k, pruneAt);
    OrderIsDistinct(before, st.order);
    PutKeepsQueueDistinctIff(st, capacity, k, e, pruneAt);
    if CleanPut(st, capacity, k) {
      WithoutInOrder(before, st.order, k);
      KeepingInOrder(before, st.order, FreshEntries(st.entries, pruneAt).Keys);
      EvictInOrder(before, Prune(st, pruneAt), capacity);
      if k !in st.entries { EvictAddsNothing(Prune(st, pruneAt), capacity, k); }
      AppendInOrder(before, op, room.order);
    } else if InWriteOrder(before + [op], room.order + [k]) {
      OrderIsDistinct(before + [op], room.order + [k]);
    }
  }

  lemma {:induction false} OrderIsDistinct(ops: seq<Op>, order: seq<Key>)
    requires InWriteOrder(ops, order)
    ensures NoDup(order)
  {
    if order != [] { OrderIsDistinct(ops, order[1..]); }
  }

  /** In every clean run the queue lists its keys by their last write, least recent first. */
  lemma {:induction false} QueueIsInWriteOrder(capacity: nat, ops: seq<Op>)
    requires capacity >= 1 && CleanRun(capacity, ops)
    ensures InWriteOrder(ops, Exec(capacity, ops).order)
  {
    if ops != [] {
      var before, op := ops[..|ops| - 1], ops[|ops| - 1];
      var st := Exec(capacity, before);
      QueueIsInWriteOrder(capacity, before);
      assert ops == before + [op];
      match op
      case PutOp(k, e, pruneAt) => PutKeepsWriteOrderIff(capacity, before, k, e, pruneAt);
      case GetOp(k, now) =>
        WithoutInOrder(before, st.order, k);
        LaterOpKeepsOrder(before, op, Get(st, k, now).0.order);
      case ForgetOp(k) => LaterOpKeepsOrder(before, op, st.order);
      case ClearOp =>
    }
  }

  lemma {:induction false} LaterOpKeepsOrder(before: seq<Op>, op: Op, order: seq<Key>)
    requires InWriteOrder(before, order) && (op.PutOp? ==> op.key !in order)
    ensures InWriteOrder(before + [op], order)
  {
    assert (before + [op])[..|before|] == before;
    if order != [] {
      LaterOpKeepsOrder(before, op, order[1..]);
      assert forall x :: x in order ==> LastWrite(before + [op], x) == LastWrite(before, x);
    }
  }

  lemma {:induction false} AppendInOrder(before: seq<Op>, op: Op, order: seq<Key>)
    requires op.PutOp? && op.key !in order && InWriteOrder(before, order)
    ensures InWriteOrder(before + [op], order + [op.key])
  {
    LaterOpKeepsOrder(before, op, order);
    if order != [] {
      AppendInOrder(before, op, order[1..]);
      assert (order + [op.key])[1..] == order[1..] + [op.key];
      assert (before + [op])[..|before|] == before;
      LastWriteBound(before, order[0]);
    }
  }

  /**
   In every clean run, a write that must evict, after pruning, drops the least recently written
   entries: every key it drops was written before every key it keeps.
   */
  lemma EvictionDropsLeastRecentlyWritten(capacity: nat, ops: seq<Op>, k: Key, pruneAt: nat, gone: Key, kept: Key)
    requires capacity >= 1 && CleanRun(capacity, ops)
    requires k !in Exec(capacity, ops).entries && |Exec(capacity, ops).entries| >= capacity
    requires var room := MakeRoom(Exec(capacity, ops), capacity, k, pruneAt);
             && gone in Prune(Exec(capacity, ops), pruneAt).entries && gone !in room.entries
             && kept in room.entries
    ensures LastWrite(ops, gone) < LastWrite(ops, kept)
  {
    PrunedQueue(capacity, ops, pruneAt);
    EvictedIsOlder(ops, Prune(Exec(capacity, ops), pruneAt), capacity, gone, kept);
  }

  lemma EvictedIsOlder(ops: seq<Op>, st: Store, capacity: nat, gone: Key, kept: Key)
    requires capacity >= 1 && Exact(st) && InWriteOrder(ops, st.order)
    requires gone in st.entries && gone !in EvictOldest(st, capacity).entries
    requires kept in EvictOldest(st, capacity).entries
    ensures LastWrite(ops, gone) < LastWrite(ops, kept)
  {
    EvictPopsPrefix(st, capacity);
    EvictRefines(st, capacity);
    SuffixIsNewer(ops, st.order, EvictOldest(st, capacity).order, gone, kept);
  }

  lemma PrunedQueue(capacity: nat, ops: seq<Op>, pruneAt: nat)
    requires capacity >= 1 && CleanRun(capacity, ops)
    ensures Exact(Prune(Exec(capacity, ops), pruneAt))
    ensures InWriteOrder(ops, Prune(Exec(capacity, ops), pruneAt).order)
  {
    var st := Exec(capacity, ops);
    RefinesListCache(capacity, ops);
    QueueIsInWriteOrder(capacity, ops);
    KeepingNoDup(st.order, FreshEntries(st.entries, pruneAt).Keys);
    KeepingInOrder(ops, st.order, FreshEntries(st.entries, pruneAt).Keys);
  }

  lemma {:induction false} SuffixIsNewer(ops: seq<Op>, order: seq<Key>, suffix: seq<Key>, gone: Key, kept: Key)
    requires InWriteOrder(ops, order)
    requires |suffix| <= |order| && suffix == order[|order| - |suffix|..]
    requires gone in order && gone !in suffix && kept in suffix
    ensures LastWrite(ops, gone) < LastWrite(ops, kept)
  {
    if order != suffix && order[0] != gone {
      SuffixIsNewer(ops, order[1..], suffix, gone, kept);
    }
  }

  // ---------------------------------------------------------------------------
  // What an unclean write breaks
  // ---------------------------------------------------------------------------

  /**
   A key that was forgotten and written again can be evicted as if it were old: here `a`
   is the most recently written of the two entries, and the write of `c` evicts it.
   */
  lemma RewrittenKeyEvictedAsOld(a: Key, b: Key, c: Key, e: Entry)
    requires a != b && b != c && a != c && e.expiresAt > 0
    ensures var ops := [] + [PutOp(a, e, 0)] + [ForgetOp(a)] + [PutOp(b, e, 0)] + [PutOp(a, e, 0)];
            && Exec(2, ops).entries == map[a := e, b := e]
            && LastWrite(ops, b) < LastWrite(ops, a)
            && Exec(2, ops + [PutOp(c, e, 0)]).entries == map[b := e, c := e]
  {
    var ops2 := [] + [PutOp(a, e, 0)] + [ForgetOp(a)];
    var ops3 := ops2 + [PutOp(b, e, 0)];
    var ops4 := ops3 + [PutOp(a, e, 0)];
    LeavesKeyQueued(a, e);
    ExecLast(2, ops2, PutOp(b, e, 0));
    ExecLast(2, ops3, PutOp(a, e, 0));
    ExecLast(2, ops4, PutOp(c, e, 0));
    PutsBelowCapacity(a, b, e);
    EvictsLeftOver(a, b, c, e);
    assert ops4[..|ops4| - 1] == ops3;
    LastWriteBound(ops3, b);
  }

  lemma LeavesKeyQueued(a: Key, e: Entry)
    ensures Exec(2, [] + [PutOp(a, e, 0)] + [ForgetOp(a)]) == Store(map[], [a])
  {
    ExecLast(2, [], PutOp(a, e, 0));
    ExecLast(2, [] + [PutOp(a, e, 0)], ForgetOp(a));
  }

  lemma PutsBelowCapacity(a: Key, b: Key, e: Entry)
    requires a != b
    ensures Put(Store(map[], [a]), 2, b, e, 0) == Store(map[b := e], [a, b])
    ensures Put(Store(map[b := e], [a, b]), 2, a, e, 0) == Store(map[a := e, b := e], [a, b, a])
  {
    assert map[b := e][a := e] == map[a := e, b := e];
  }

  lemma ExecLast(capacity: nat, ops: seq<Op>, op: Op)
    ensures Exec(capacity, ops + [op]) == Exec1(Exec(capacity, ops), capacity, op)
  {
    assert (ops + [op])[..|ops|] == ops;
  }

  lemma EvictsLeftOver(a: Key, b: Key, c: Key, e: Entry)
    requires a != b && b != c && a != c && e.expiresAt > 0
    ensures Put(Store(map[a := e, b := e], [a, b, a]), 2, c, e, 0) == Store(map[b := e, c := e], [b, a, c])
  {
    var st := Store(map[a := e, b := e], [a, b, a]);
    NothingToPrune(st);
    EvictsFirst(a, b, e);
    assert MakeRoom(st, 2, c, 0) == Store(map[b := e], [b, a]);
  }

  lemma NothingToPrune(st: Store)
    requires forall k :: k in st.entries ==> st.entries[k].expiresAt > 0
    requires forall k :: k in st.order ==> k in st.entries
    ensures Prune(st, 0) == st
  {
    assert FreshEntries(st.entries, 0) == st.entries;
    KeepsAll(st.order, st.entries.Keys);
  }

  lemma EvictsFirst(a: Key, b: Key, e: Entry)
    requires a != b
    ensures |map[a := e, b := e]| == 2
    ensures EvictOldest(Store(map[a := e, b := e], [a, b, a]), 2) == Store(map[b := e], [b, a])
  {
    var st, popped := Store(map[a := e, b := e], [a, b, a]), Store(map[b := e], [b, a]);
    assert st.entries.Keys == {a, b};
    assert st.entries - {a} == popped.entries && st.order[1..] == popped.order;
    assert EvictOldest(popped, 2) == popped;
  }

  // ---------------------------------------------------------------------------
  // How long the queue gets
  // ---------------------------------------------------------------------------

  /** The write finds its key live, or the map full, or room in the queue. */
  predicate RoomyPut(st: Store, capacity: nat, k: Key) {
    k in st.entries || |st.entries| >= capacity || |st.order| < capacity
  }

  lemma {:induction false} KeepingShortens(order: seq<Key>, keys: set<Key>, live: set<Key>)
    requires forall k :: k in keys ==> k in order
    ensures |Keeping(order, live)| + |keys - live| <= |order|
  {
    if order == [] {
      assert keys == {};
    } else {
      var k := order[0];
      KeepingShortens(order[1..], keys - {k}, live);
      assert keys - live <= ((keys - {k}) - live) + {k};
      if k in live {
        assert keys - live == (keys - {k}) - live;
      } else {
        SubsetCardinality(keys - live, ((keys - {k}) - live) + {k});
      }
    }
  }

  lemma {:induction false} WithoutShortens(order: seq<Key>, k: Key)
    requires k in order
    ensures |Without(order, k)| < |order|
  {
    if order[0] != k { WithoutShortens(order[1..], k); }
  }

  /** With the queue within the capacity, a write keeps it there exactly when it finds room. */
  lemma PutKeepsQueueBoundedIff(st: Store, capacity: nat, k: Key, e: Entry, pruneAt: nat)
    requires Inv(st, capacity) && |st.order| <= capacity && capacity >= 1
    ensures |Put(st, capacity, k, e, pruneAt).order| <= capacity <==> RoomyPut(st, capacity, k)
  {
    if k in st.entries {
      WithoutShortens(st.order, k);
    } else if |st.entries| >= capacity {
      FullMapMakesRoom(st, capacity, pruneAt);
    }
  }

  lemma FullMapMakesRoom(st: Store, capacity: nat, pruneAt: nat)
    requires Inv(st, capacity) && |st.order| <= capacity && |st.entries| >= capacity >= 1
    ensures |EvictOldest(Prune(st, pruneAt), capacity).order| < capacity
  {
    var pruned := Prune(st, pruneAt);
    KeepingShortens(st.order, st.entries.Keys, pruned.entries.Keys);
    EvictPopsPrefix(pruned, capacity);
    if |pruned.entries| < capacity {
      PrunedSome(st, pruneAt);
    } else {
      EvictPopsOne(pruned, capacity);
    }
  }

  lemma PrunedSome(st: Store, pruneAt: nat)
    ensures |st.entries| == |Prune(st, pruneAt).entries| + |st.entries.Keys - Prune(st, pruneAt).entries.Keys|
  {
    var keys, live := st.entries.Keys, Prune(st, pruneAt).entries.Keys;
    assert keys == live + (keys - live);
    assert |keys| == |live| + |keys - live|;
  }

  lemma EvictPopsOne(st: Store, capacity: nat)
    requires |st.entries| >= capacity >= 1 && forall k :: k in st.entries ==> k in st.order
    ensures |EvictOldest(st, capacity).order| < |st.order|
  {
    var some :| some in st.entries.Keys;
    EvictPopsPrefix(Store(st.entries - {st.order[0]}, st.order[1..]), capacity);
  }

  /** Every write of the run finds room. */
  ghost predicate RoomyRun(capacity: nat, ops: seq<Op>) {
    ops == [] ||
    (var before, op := ops[..|ops| - 1], ops[|ops| - 1];
     RoomyRun(capacity, before) && (op.PutOp? ==> RoomyPut(Exec(capacity, before), capacity, op.key)))
  }

  /** The queue stays within the capacity in every run whose writes all find room. */
  lemma {:induction false} QueueStaysBounded(capacity: nat, ops: seq<Op>)
    requires capacity >= 1 && RoomyRun(capacity, ops)
    ensures |Exec(capacity, ops).order| <= capacity
  {
    if ops != [] {
      var before, op := ops[..|ops| - 1], ops[|ops| - 1];
      QueueStaysBounded(capacity, before);
      RunKeepsInv(capacity, before);
      if op.PutOp? {
        PutKeepsQueueBoundedIff(Exec(capacity, before), capacity, op.key, op.entry, op.pruneAt);
      }
    }
  }

  /** The queue is not bounded by the capacity: forgetting and rewriting one key grows it. */
  lemma {:induction false} QueueGrowsWithoutBound(capacity: nat, k: Key, e: Entry, n: nat) returns (ops: seq<Op>)
    requires capacity >= 1
    ensures |Exec(capacity, ops).order| == n && Exec(capacity, ops).entries == map[]
  {
    if n == 0 {
      ops := [];
    } else {
      var before := QueueGrowsWithoutBound(capacity, k, e, n - 1);
      var put := before + [PutOp(k, e, 0)];
      ops := put + [ForgetOp(k)];
      assert ops[..|ops| - 1] == put && put[..|put| - 1] == before;
      assert Exec(capacity, put) == Store(map[k := e], Exec(capacity, before).order + [k]);
    }
  }
}
