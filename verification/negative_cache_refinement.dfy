/**
 The map-and-queue memo as a plain list of entries, oldest write first. A queue may hold keys that
 were forgotten; as long as no write re-queues such a key, the live part of the queue is that list.
 */
module NegativeMemoRefinement {
  import opened Common
  import opened ArtworkTypes
  import opened NegativeMemo

  type Listed = seq<(Key, Entry)>

  // ---------------------------------------------------------------------------
  // The simple cache: one list, oldest write first
  // ---------------------------------------------------------------------------

  predicate Lists(l: Listed, k: Key) {
    exists i :: 0 <= i < |l| && l[i].0 == k
  }

  function DropKey(l: Listed, k: Key): Listed {
    if l == [] then []
    else if l[0].0 == k then DropKey(l[1..], k)
    else [l[0]] + DropKey(l[1..], k)
  }

  function DropStale(l: Listed, now: nat): Listed {
    if l == [] then []
    else if now < l[0].1.expiresAt then [l[0]] + DropStale(l[1..], now)
    else DropStale(l[1..], now)
  }

  function Newest(l: Listed, n: nat): Listed {
    if |l| > n then l[|l| - n..] else l
  }

  function ListPut(l: Listed, capacity: nat, k: Key, e: Entry, pruneAt: nat): Listed
    requires capacity >= 1
  {
    if Lists(l, k) then DropKey(l, k) + [(k, e)]
    else if |l| >= capacity then Newest(DropStale(l, pruneAt), capacity - 1) + [(k, e)]
    else l + [(k, e)]
  }

  /** A lookup removes the key when its entry is stale. */
  function ListGet(l: Listed, k: Key, now: nat): Listed {
    if exists i :: 0 <= i < |l| && l[i].0 == k && now < l[i].1.expiresAt then l else DropKey(l, k)
  }

  /** What a lookup answers: the first fresh entry of the key. */
  function ListAnswer(l: Listed, k: Key, now: nat): Option<Entry> {
    if l == [] then None
    else if l[0].0 == k && now < l[0].1.expiresAt then Some(l[0].1)
    else ListAnswer(l[1..], k, now)
  }

  /** One operation of the list cache. */
  function ListStep(l: Listed, capacity: nat, op: Op): Listed
    requires capacity >= 1
  {
    match op
    case PutOp(k, e, pruneAt) => ListPut(l, capacity, k, e, pruneAt)
    case GetOp(k, now) => ListGet(l, k, now)
    case ForgetOp(k) => DropKey(l, k)
    case ClearOp => []
  }

  function ListExec(capacity: nat, ops: seq<Op>): Listed
    requires capacity >= 1
  {
    if ops == [] then [] else ListStep(ListExec(capacity, ops[..|ops| - 1]), capacity, ops[|ops| - 1])
  }

  // ---------------------------------------------------------------------------
  // Abstraction
  // ---------------------------------------------------------------------------

  ghost predicate NoDup(s: seq<Key>) {
    s == [] || (s[0] !in s[1..] && NoDup(s[1..]))
  }

  /** The queue holds exactly the map's keys, once each. */
  ghost predicate Exact(st: Store) {
    NoDup(st.order) && forall k :: k in st.order <==> k in st.entries
  }

  ghost function Pairs(entries: map<Key, Entry>, order: seq<Key>): Listed
    requires forall k :: k in order ==> k in entries
  {
    if order == [] then [] else [(order[0], entries[order[0]])] + Pairs(entries, order[1..])
  }

  ghost function Abs(st: Store): Listed
    requires Exact(st)
  {
    Pairs(st.entries, st.order)
  }

  lemma {:induction false} PairsAt(m: map<Key, Entry>, order: seq<Key>)
    requires forall k :: k in order ==> k in m
    ensures |Pairs(m, order)| == |order|
    ensures forall i :: 0 <= i < |order| ==> Pairs(m, order)[i] == (order[i], m[order[i]])
  {
    if order != [] { PairsAt(m, order[1..]); }
  }

  lemma {:induction false} WithoutNoDup(order: seq<Key>, k: Key)
    requires NoDup(order)
    ensures NoDup(Without(order, k))
  {
    if order != [] {
      WithoutNoDup(order[1..], k);
    }
  }

  lemma {:induction false} KeepingNoDup(order: seq<Key>, live: set<Key>)
    requires NoDup(order)
    ensures NoDup(Keeping(order, live))
  {
    if order != [] { KeepingNoDup(order[1..], live); }
  }

  lemma {:induction false} PairsWithout(m: map<Key, Entry>, m': map<Key, Entry>, order: seq<Key>, k: Key)
    requires forall x :: x in order ==> x in m
    requires forall x :: x in order && x != k ==> x in m' && m'[x] == m[x]
    ensures Pairs(m', Without(order, k)) == DropKey(Pairs(m, order), k)
  {
    if order != [] { PairsWithout(m, m', order[1..], k); }
  }

  lemma {:induction false} PairsFresh(m: map<Key, Entry>, order: seq<Key>, now: nat)
    requires forall x :: x in order ==> x in m
    ensures var live := FreshEntries(m, now);
            Pairs(live, Keeping(order, live.Keys)) == DropStale(Pairs(m, order), now)
  {
    if order != [] { PairsFresh(m, order[1..], now); }
  }

  lemma {:induction false} CardinalityOfNoDup(s: seq<Key>, keys: set<Key>)
    requires NoDup(s) && forall k :: k in s <==> k in keys
    ensures |keys| == |s|
  {
    if s == [] {
      assert keys == {};
    } else {
      assert s[0] in s;
      CardinalityOfNoDup(s[1..], keys - {s[0]});
    }
  }

  lemma PopRefines(st: Store)
    requires Exact(st) && st.order != []
    ensures var next := Store(st.entries - {st.order[0]}, st.order[1..]);
            Exact(next) && Abs(next) == Abs(st)[1..]
  {
    var next := Store(st.entries - {st.order[0]}, st.order[1..]);
    assert Exact(next);
    PairsAt(st.entries, st.order);
    PairsAt(next.entries, next.order);
  }

  lemma LengthOfAbs(st: Store)
    requires Exact(st)
    ensures |Abs(st)| == |st.order| == |st.entries|
  {
    CardinalityOfNoDup(st.order, st.entries.Keys);
    PairsAt(st.entries, st.order);
  }

  lemma {:induction false} EvictRefines(st: Store, capacity: nat)
    requires Exact(st) && capacity >= 1
    ensures Exact(EvictOldest(st, capacity))
    ensures Abs(EvictOldest(st, capacity)) == Newest(Abs(st), capacity - 1)
    decreases |st.order|
  {
    LengthOfAbs(st);
    if |st.entries| >= capacity {
      PopRefines(st);
      EvictRefines(Store(st.entries - {st.order[0]}, st.order[1..]), capacity);
    }
  }

  lemma MakeRoomRefines(st: Store, capacity: nat, k: Key, pruneAt: nat)
    requires Exact(st) && capacity >= 1 && k !in st.entries && |st.entries| >= capacity
    ensures Exact(MakeRoom(st, capacity, k, pruneAt))
    ensures Abs(MakeRoom(st, capacity, k, pruneAt)) == Newest(DropStale(Abs(st), pruneAt), capacity - 1)
    ensures k !in MakeRoom(st, capacity, k, pruneAt).entries
  {
    var pruned := Prune(st, pruneAt);
    KeepingNoDup(st.order, pruned.entries.Keys);
    PairsFresh(st.entries, st.order, pruneAt);
    EvictRefines(pruned, capacity);
    EvictOnlyRemoves(pruned, capacity);
  }

  lemma {:induction false} EvictOnlyRemoves(st: Store, capacity: nat)
    ensures EvictOldest(st, capacity).entries.Keys <= st.entries.Keys
    decreases |st.order|
  {
    if |st.entries| >= capacity && st.order != [] {
      EvictOnlyRemoves(Store(st.entries - {st.order[0]}, st.order[1..]), capacity);
    }
  }

  lemma {:induction false} AppendNoDup(order: seq<Key>, k: Key)
    requires NoDup(order)
    ensures NoDup(order + [k]) <==> k !in order
  {
    if order != [] {
      assert (order + [k])[1..] == order[1..] + [k];
      AppendNoDup(order[1..], k);
    }
  }

  lemma AppendRefines(m: map<Key, Entry>, order: seq<Key>, k: Key, e: Entry)
    requires NoDup(order) && k !in order && forall x :: x in order ==> x in m
    requires forall x :: x in m && x != k ==> x in order
    ensures Exact(Store(m[k := e], order + [k]))
    ensures Abs(Store(m[k := e], order + [k])) == Pairs(m, order) + [(k, e)]
  {
    var st := Store(m[k := e], order + [k]);
    AppendNoDup(order, k);
    PairsAt(m, order);
    PairsAt(st.entries, st.order);
  }

  lemma PutRefines(st: Store, capacity: nat, k: Key, e: Entry, pruneAt: nat)
    requires Exact(st) && capacity >= 1
    ensures Exact(Put(st, capacity, k, e, pruneAt))
    ensures Abs(Put(st, capacity, k, e, pruneAt)) == ListPut(Abs(st), capacity, k, e, pruneAt)
  {
    PairsAt(st.entries, st.order);
    CardinalityOfNoDup(st.order, st.entries.Keys);
    assert Lists(Abs(st), k) <==> k in st.entries by {
      if k in st.entries {
        var i :| 0 <= i < |st.order| && st.order[i] == k;
        assert Abs(st)[i].0 == k;
      }
    }
    if k in st.entries {
      WithoutNoDup(st.order, k);
      PairsWithout(st.entries, st.entries, st.order, k);
      AppendRefines(st.entries, Without(st.order, k), k, e);
    } else if |st.entries| >= capacity {
      MakeRoomRefines(st, capacity, k, pruneAt);
      var room := MakeRoom(st, capacity, k, pruneAt);
      AppendRefines(room.entries, room.order, k, e);
    } else {
      AppendRefines(st.entries, st.order, k, e);
    }
  }

  lemma GetRefines(st: Store, k: Key, now: nat)
    requires Exact(st)
    ensures Exact(Get(st, k, now).0)
    ensures Abs(Get(st, k, now).0) == ListGet(Abs(st), k, now)
  {
    PairsAt(st.entries, st.order);
    if k in st.entries {
      var i :| 0 <= i < |st.order| && st.order[i] == k;
      assert Abs(st)[i] == (k, st.entries[k]);
    }
    if k !in st.entries {
      DropAbsent(Abs(st), k);
    } else if now >= st.entries[k].expiresAt {
      WithoutNoDup(st.order, k);
      PairsWithout(st.entries, st.entries - {k}, st.order, k);
    }
  }

  lemma {:induction false} DropAbsent(l: Listed, k: Key)
    requires forall i :: 0 <= i < |l| ==> l[i].0 != k
    ensures DropKey(l, k) == l
  {
    if l != [] { DropAbsent(l[1..], k); }
  }

  lemma {:induction false} AnswerOf(m: map<Key, Entry>, order: seq<Key>, k: Key, now: nat)
    requires forall x :: x in order ==> x in m
    ensures ListAnswer(Pairs(m, order), k, now)
            == if k in order && now < m[k].expiresAt then Some(m[k]) else None
  {
    if order != [] { AnswerOf(m, order[1..], k, now); }
  }

  // ---------------------------------------------------------------------------
  // Queues that still hold forgotten keys
  // ---------------------------------------------------------------------------

  /** The queue holds every key of the map, and nothing twice. */
  ghost predicate Tidy(st: Store) {
    NoDup(st.order) && forall k :: k in st.entries ==> k in st.order
  }

  /** The store without the forgotten keys of its queue. */
  ghost function Live(st: Store): Store {
    st.(order := Keeping(st.order, st.entries.Keys))
  }

  lemma LiveIsExact(st: Store)
    requires Tidy(st)
    ensures Exact(Live(st))
  {
    KeepingNoDup(st.order, st.entries.Keys);
  }

  /** The write finds its key live, or the map full, or the key not queued at all. */
  predicate CleanPut(st: Store, capacity: nat, k: Key) {
    k in st.entries || |st.entries| >= capacity || k !in st.order
  }

  lemma {:induction false} KeepingTwice(order: seq<Key>, outer: set<Key>, inner: set<Key>)
    requires inner <= outer
    ensures Keeping(Keeping(order, outer), inner) == Keeping(order, inner)
  {
    if order != [] { KeepingTwice(order[1..], outer, inner); }
  }

  lemma {:induction false} KeepingWithout(order: seq<Key>, live: set<Key>, k: Key)
    ensures Keeping(Without(order, k), live) == Without(Keeping(order, live), k)
    ensures Keeping(Without(order, k), live - {k}) == Without(Keeping(order, live), k)
    ensures Keeping(order, live - {k}) == Without(Keeping(order, live), k)
  {
    if order != [] { KeepingWithout(order[1..], live, k); }
  }

  lemma {:induction false} KeepingAppend(order: seq<Key>, live: set<Key>, k: Key)
    requires k !in order
    ensures Keeping(order + [k], live + {k}) == Keeping(order, live) + [k]
  {
    if order == [] {
      assert [] + [k] == [k] && [k][1..] == [];
    } else {
      assert (order + [k])[1..] == order[1..] + [k];
      KeepingAppend(order[1..], live, k);
    }
  }

  lemma {:induction false} WithoutAbsent(order: seq<Key>, k: Key)
    ensures k !in Without(order, k)
  {
    if order != [] { WithoutAbsent(order[1..], k); }
  }

  lemma LiveOfPrune(st: Store, pruneAt: nat)
    ensures Prune(Live(st), pruneAt) == Prune(st, pruneAt)
  {
    KeepingTwice(st.order, st.entries.Keys, FreshEntries(st.entries, pruneAt).Keys);
  }

  lemma LiveOfExact(st: Store)
    requires Exact(st)
    ensures Live(st) == st
  {
    KeepsAll(st.order, st.entries.Keys);
  }

  lemma {:induction false} KeepsAll(order: seq<Key>, live: set<Key>)
    requires forall k :: k in order ==> k in live
    ensures Keeping(order, live) == order
  {
    if order != [] { KeepsAll(order[1..], live); }
  }

  lemma KeepingMoved(order: seq<Key>, live: set<Key>, k: Key)
    requires k in live && k !in Without(order, k)
    ensures Keeping(Without(order, k) + [k], live) == Without(Keeping(order, live), k) + [k]
  {
    KeepingWithout(order, live, k);
    KeepingAppend(Without(order, k), live, k);
    assert live + {k} == live;
  }

  lemma LiveOfRewrite(st: Store, k: Key, e: Entry)
    requires Tidy(st) && k in st.entries
    ensures Live(Store(st.entries[k := e], Without(st.order, k) + [k]))
            == Store(st.entries[k := e], Without(Live(st).order, k) + [k])
  {
    KeepingMoved(st.order, st.entries.Keys, k);
    assert st.entries[k := e].Keys == st.entries.Keys;
  }

  lemma LiveOfAppend(st: Store, k: Key, e: Entry)
    requires Tidy(st) && k !in st.order
    ensures Live(Store(st.entries[k := e], st.order + [k])) == Store(st.entries[k := e], Live(st).order + [k])
  {
    KeepingAppend(st.order, st.entries.Keys, k);
    assert st.entries[k := e].Keys == st.entries.Keys + {k};
  }

  /** A clean write does to the live store what it does to the store. */
  lemma LivePut(st: Store, capacity: nat, k: Key, e: Entry, pruneAt: nat)
    requires Tidy(st) && capacity >= 1 && CleanPut(st, capacity, k)
    ensures Live(Put(st, capacity, k, e, pruneAt)) == Put(Live(st), capacity, k, e, pruneAt)
  {
    if k in st.entries {
      LiveOfRewrite(st, k, e);
    } else if |st.entries| >= capacity {
      LiveOfPrune(st, pruneAt);
      LiveIsExact(st);
      PutRefines(Live(st), capacity, k, e, pruneAt);
      LiveOfExact(Put(Live(st), capacity, k, e, pruneAt));
    } else {
      LiveOfAppend(st, k, e);
    }
  }

  lemma LiveGet(st: Store, k: Key, now: nat)
    requires Tidy(st)
    ensures Tidy(Get(st, k, now).0)
    ensures Live(Get(st, k, now).0) == Get(Live(st), k, now).0 && Get(st, k, now).1 == Get(Live(st), k, now).1
  {
    WithoutNoDup(st.order, k);
    KeepingWithout(st.order, st.entries.Keys, k);
    assert (st.entries - {k}).Keys == st.entries.Keys - {k};
  }

  /** Forgetting a key drops it from the list. */
  lemma ForgetRefines(st: Store, k: Key)
    requires Tidy(st)
    ensures Tidy(Forget(st, k)) && Exact(Live(st)) && Exact(Live(Forget(st, k)))
    ensures Abs(Live(Forget(st, k))) == DropKey(Abs(Live(st)), k)
  {
    LiveIsExact(st);
    LiveIsExact(Forget(st, k));
    KeepingWithout(st.order, st.entries.Keys, k);
    assert (st.entries - {k}).Keys == st.entries.Keys - {k};
    PairsWithout(st.entries, st.entries - {k}, Live(st).order, k);
  }
}
