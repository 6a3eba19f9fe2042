/**
 The capacity-bounded negative memo: a map of entries beside a queue of keys, oldest first.
 The functions are the effect of each operation on the pair; the class performs them on its
 own fields.
 */
module NegativeMemo {
  import opened Common
  import opened ArtworkTypes

  datatype Entry = Entry(status: string, detail: string, provider: Option<string>, expiresAt: nat)

  datatype Store = Store(entries: map<Key, Entry>, order: seq<Key>)

  const EMPTY := Store(map[], [])

  function Without(order: seq<Key>, k: Key): (r: seq<Key>)
    ensures forall x :: x in r <==> x in order && x != k
    ensures |r| <= |order|
  {
    if order == [] then []
    else if order[0] == k then Without(order[1..], k)
    else [order[0]] + Without(order[1..], k)
  }

  function Keeping(order: seq<Key>, live: set<Key>): (r: seq<Key>)
    ensures forall x :: x in r <==> x in order && x in live
    ensures |r| <= |order|
  {
    if order == [] then []
    else if order[0] in live then [order[0]] + Keeping(order[1..], live)
    else Keeping(order[1..], live)
  }

  function FreshEntries(entries: map<Key, Entry>, now: nat): map<Key, Entry> {
    map k | k in entries && now < entries[k].expiresAt :: entries[k]
  }

  function Prune(st: Store, now: nat): Store {
    var live := FreshEntries(st.entries, now);
    Store(live, Keeping(st.order, live.Keys))
  }

  /** Pop the oldest queued keys until the map is below capacity or the queue is empty. */
  function EvictOldest(st: Store, capacity: nat): Store
    decreases |st.order|
  {
    if |st.entries| >= capacity && st.order != [] then
      EvictOldest(Store(st.entries - {st.order[0]}, st.order[1..]), capacity)
    else st
  }

  /** The store just before the written key is appended. */
  function MakeRoom(st: Store, capacity: nat, k: Key, pruneAt: nat): Store {
    if k in st.entries then st.(order := Without(st.order, k))
    else if |st.entries| >= capacity then EvictOldest(Prune(st, pruneAt), capacity)
    else st
  }

  function Put(st: Store, capacity: nat, k: Key, e: Entry, pruneAt: nat): Store {
    var room := MakeRoom(st, capacity, k, pruneAt);
    Store(room.entries[k := e], room.order + [k])
  }

  /** A stale entry is evicted on sight. */
  function Get(st: Store, k: Key, now: nat): (Store, Option<Entry>) {
    if k !in st.entries then (st, None)
    else if now < st.entries[k].expiresAt then (st, Some(st.entries[k]))
    else (Store(st.entries - {k}, Without(st.order, k)), None)
  }

  /** Removes the entry and leaves the key queued. */
  function Forget(st: Store, k: Key): Store {
    st.(entries := st.entries - {k})
  }

  /** Every entry is queued and the map fits. */
  ghost predicate Inv(st: Store, capacity: nat) {
    && (forall k :: k in st.entries ==> k in st.order)
    && |st.entries| <= capacity
  }

  lemma {:induction false} EvictMakesRoom(st: Store, capacity: nat)
    requires forall k :: k in st.entries ==> k in st.order
    requires capacity >= 1
    ensures var r := EvictOldest(st, capacity);
            && (forall k :: k in r.entries ==> k in r.order && k in st.entries && r.entries[k] == st.entries[k])
            && |r.entries| < capacity
    decreases |st.order|
  {
    if |st.entries| >= capacity {
      var some :| some in st.entries.Keys;
      assert st.order != [];
      var next := Store(st.entries - {st.order[0]}, st.order[1..]);
      EvictMakesRoom(next, capacity);
    }
  }

  /** The key's entry is there already or there is room for it, and what stays is queued as it was. */
  lemma MakeRoomMakesRoom(st: Store, capacity: nat, k: Key, pruneAt: nat)
    requires Inv(st, capacity) && capacity >= 1
    ensures var room := MakeRoom(st, capacity, k, pruneAt);
            && (forall j :: j in room.entries ==> j in st.entries && room.entries[j] == st.entries[j])
            && (forall j :: j in room.entries && j != k ==> j in room.order)
            && |room.entries| <= capacity && (k in room.entries || |room.entries| < capacity)
  {
    if k !in st.entries && |st.entries| >= capacity {
      EvictMakesRoom(Prune(st, pruneAt), capacity);
    }
  }

  lemma PutKeepsInv(st: Store, capacity: nat, k: Key, e: Entry, pruneAt: nat)
    requires Inv(st, capacity) && capacity >= 1
    ensures Inv(Put(st, capacity, k, e, pruneAt), capacity)
    ensures forall j :: j in Put(st, capacity, k, e, pruneAt).entries && j != k ==>
              j in st.entries && Put(st, capacity, k, e, pruneAt).entries[j] == st.entries[j]
  {
    MakeRoomMakesRoom(st, capacity, k, pruneAt);
    assert Put(st, capacity, k, e, pruneAt).entries.Keys == MakeRoom(st, capacity, k, pruneAt).entries.Keys + {k};
  }

  lemma GetKeepsInv(st: Store, capacity: nat, k: Key, now: nat)
    requires Inv(st, capacity)
    ensures Inv(Get(st, k, now).0, capacity)
  {
    assert (st.entries - {k}).Keys == st.entries.Keys - {k};
  }

  lemma ForgetKeepsInv(st: Store, capacity: nat, k: Key)
    requires Inv(st, capacity)
    ensures Inv(Forget(st, k), capacity)
  {
    assert (st.entries - {k}).Keys == st.entries.Keys - {k};
  }

  class NegativeCache {
    var entries: map<Key, Entry>
    var order: seq<Key>
    const ttl: nat
    const capacity: nat

    ghost function View(): Store
      reads this
    {
      Store(entries, order)
    }

    ghost predicate Valid()
      reads this
    {
      capacity >= 1 && Inv(View(), capacity)
    }

    constructor (ttl: nat, capacity: nat)
      ensures Valid() && View() == EMPTY
      ensures this.ttl == ttl && this.capacity == if capacity == 0 then 1 else capacity
    {
      this.entries, this.order, this.ttl := map[], [], ttl;
      this.capacity := if capacity == 0 then 1 else capacity;
    }

    method Lookup(k: Key, now: nat) returns (hit: Option<Entry>)
      requires Valid()
      modifies this
      ensures Valid() && (View(), hit) == Get(old(View()), k, now)
    {
      GetKeepsInv(View(), capacity, k, now);
      if k !in entries {
        return None;
      }
      if now < entries[k].expiresAt {
        return Some(entries[k]);
      }
      entries := entries - {k};
      order := Without(order, k);
      hit := None;
    }

    /** `now` stamps the entry; `pruneAt` is the later clock reading of the prune pass. */
    method PutWithTtl(k: Key, status: string, detail: string, provider: Option<string>, life: nat,
                      now: nat, pruneAt: nat)
      requires Valid() && now <= pruneAt
      modifies this
      ensures Valid()
      ensures View() == Put(old(View()), capacity, k, Entry(status, detail, provider, now + life), pruneAt)
    {
      var entry := Entry(status, detail, provider, now + life);
      PutKeepsInv(View(), capacity, k, entry, pruneAt);
      if k in entries {
        order := Without(order, k);
      } else if |entries| >= capacity {
        entries := FreshEntries(entries, pruneAt);
        order := Keeping(order, entries.Keys);
        while |entries| >= capacity
          invariant EvictOldest(View(), capacity) == MakeRoom(old(View()), capacity, k, pruneAt)
          decreases |order|
        {
          if order == [] {
            break;
          }
          entries, order := entries - {order[0]}, order[1..];
        }
      }
      order := order + [k];
      entries := entries[k := entry];
    }

    method ForgetKey(k: Key)
      requires Valid()
      modifies this
      ensures Valid() && View() == Forget(old(View()), k)
    {
      ForgetKeepsInv(View(), capacity, k);
      entries := entries - {k};
    }

    method Clear()
      requires Valid()
      modifies this
      ensures Valid() && View() == EMPTY
    {
      entries, order := map[], [];
    }
  }

  // ---------------------------------------------------------------------------
  // Runs
  // ---------------------------------------------------------------------------

  datatype Op =
    | PutOp(key: Key, entry: Entry, pruneAt: nat)
    | GetOp(key: Key, now: nat)
    | ForgetOp(key: Key)
    | ClearOp

  function Exec1(st: Store, capacity: nat, op: Op): Store {
    match op
    case PutOp(k, e, pruneAt) => Put(st, capacity, k, e, pruneAt)
    case GetOp(k, now) => Get(st, k, now).0
    case ForgetOp(k) => Forget(st, k)
    case ClearOp => EMPTY
  }

  /** The store after a run that started empty. */
  function Exec(capacity: nat, ops: seq<Op>): Store {
    if ops == [] then EMPTY
    else Exec1(Exec(capacity, ops[..|ops| - 1]), capacity, ops[|ops| - 1])
  }

  /** What was last written for `k` and not forgotten or cleared since. */
  function LastPut(ops: seq<Op>, k: Key): Option<Entry> {
    if ops == [] then None
    else
      var last := ops[|ops| - 1];
      if last.PutOp? && last.key == k then Some(last.entry)
      else if last == ForgetOp(k) || last.ClearOp? then None
      else LastPut(ops[..|ops| - 1], k)
  }

  lemma {:induction false} RunKeepsInv(capacity: nat, ops: seq<Op>)
    requires capacity >= 1
    ensures Inv(Exec(capacity, ops), capacity)
    ensures forall k :: k in Exec(capacity, ops).entries ==> LastPut(ops, k) == Some(Exec(capacity, ops).entries[k])
  {
    if ops != [] {
      var before, op := ops[..|ops| - 1], ops[|ops| - 1];
      RunKeepsInv(capacity, before);
      match op
      case PutOp(k, e, pruneAt) => PutKeepsInv(Exec(capacity, before), capacity, k, e, pruneAt);
      case GetOp(k, now) => GetKeepsInv(Exec(capacity, before), capacity, k, now);
      case ForgetOp(k) => ForgetKeepsInv(Exec(capacity, before), capacity, k);
      case ClearOp =>
    }
  }

  /**
   In every run, whatever a lookup returns is that key's last write, unexpired and not
   forgotten or cleared since; the map never outgrows its capacity; every entry is queued.
   */
  lemma LookupReturnsLastWrite(capacity: nat, ops: seq<Op>, k: Key, now: nat)
    requires capacity >= 1
    ensures var st := Exec(capacity, ops);
            && |st.entries| <= capacity && (forall j :: j in st.entries ==> j in st.order)
            && (Get(st, k, now).1.Some? ==>
                  LastPut(ops, k) == Get(st, k, now).1 && now < Get(st, k, now).1.value.expiresAt)
  {
    RunKeepsInv(capacity, ops);
  }

  /** When an eviction is needed the queue is never empty, and one pass always makes room. */
  lemma EvictionNeverStarves(capacity: nat, ops: seq<Op>, pruneAt: nat)
    requires capacity >= 1
    ensures var pruned := Prune(Exec(capacity, ops), pruneAt);
            && (|pruned.entries| >= capacity ==> pruned.order != [])
            && |EvictOldest(pruned, capacity).entries| < capacity
  {
    RunKeepsInv(capacity, ops);
    var pruned := Prune(Exec(capacity, ops), pruneAt);
    EvictMakesRoom(pruned, capacity);
    if |pruned.entries| >= capacity { var some :| some in pruned.entries.Keys; }
  }
}
