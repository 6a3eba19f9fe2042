/**
 The cascade service over its layers: negative memo, coalescer memo, resolve index and asset
 cache. One operation runs at a time here; `CascadeRuns` interleaves many.
 */
module Cascade {
  import opened Common
  import opened ArtworkTypes
  import opened CascadeTiers
  import C = Coalescer
  import I = ResolveIndex
  import N = NegativeMemo

  const CASCADE_LOGIC_VERSION: nat := 1
  const TRANSIENT_MEMO_TTL: nat := 5 * 60
  const PROVENANCE_RESOLVE_INDEX := "resolve_index"

  /** Every size a refresh evicts for a target. */
  const FORGET_SIZE_FANOUT: seq<string> := ["small", "medium", "large", "original"]

  /** Which kinds of store operation work while one cascade operation runs. */
  datatype Io = Io(read: bool, write: bool, remove: bool, probe: bool, delete: bool)

  const ALL_WORK := Io(true, true, true, true, true)

  /** Whether the optional stores are wired at all. */
  datatype Wiring = Wiring(index: bool, assets: bool)

  datatype Layers = Layers(negative: N.Store, memo: map<Key, C.MemoEntry>, rows: map<Key, I.Row>, blobs: set<string>)

  /** One more hash deleted, or kept. */
  lemma OneDeletion(start: set<string>, hashes: set<string>, kept: set<string>, left: set<string>, hash: string)
    requires hash in left && left <= hashes
    ensures var before, after := start - (hashes - kept - left), start - (hashes - kept - (left - {hash}));
            && after == (if hash in kept then before else before - {hash})
            && |after| == |before| - (if hash !in kept && hash in before then 1 else 0)
  {
    var before, after := start - (hashes - kept - left), start - (hashes - kept - (left - {hash}));
    if hash in kept {
      assert after == before;
    } else {
      assert after == before - {hash};
      if hash !in before { assert after == before; }
    }
  }

  /** Content bytes by hash. */
  class AssetCache {
    var blobs: set<string>

    constructor (stored: set<string>)
      ensures blobs == stored
    {
      blobs := stored;
    }

    method Has(hash: string, ok: bool) returns (present: Option<bool>)
      ensures present == if ok then Some(hash in blobs) else None
    {
      present := if ok then Some(hash in blobs) else None;
    }

    method Delete(hash: string, ok: bool) returns (existed: Option<bool>)
      modifies this
      ensures existed == if ok then Some(hash in old(blobs)) else None
      ensures blobs == if ok then old(blobs) - {hash} else old(blobs)
    {
      existed := None;
      if ok {
        existed := Some(hash in blobs);
        blobs := blobs - {hash};
      }
    }

    /** Deletes the hashes one by one and counts those that were there; `kept` ones cannot be deleted. */
    method DeleteAll(hashes: set<string>, kept: set<string>) returns (deleted: nat)
      modifies this
      ensures blobs == old(blobs) - (hashes - kept)
      ensures deleted == |old(blobs)| - |blobs|
    {
      deleted := 0;
      var left := hashes;
      while left != {}
        invariant left <= hashes
        invariant blobs == old(blobs) - (hashes - kept - left)
        invariant deleted == |old(blobs)| - |blobs|
        decreases left
      {
        var hash :| hash in left;
        OneDeletion(old(blobs), hashes, kept, left, hash);
        var existed := Delete(hash, hash !in kept);
        if existed == Some(true) {
          deleted := deleted + 1;
        }
        left := left - {hash};
      }
    }
  }

  // ---------------------------------------------------------------------------
  // What the operations do to the layers
  // ---------------------------------------------------------------------------

  /** Forget one size: every memo, the row, then the bytes the row named. */
  function ForgetOne(l: Layers, w: Wiring, io: Io, k: Key): Layers {
    var hit := if w.index && io.read then I.Find(l.rows, k) else None;
    Layers(
      N.Forget(l.negative, k),
      l.memo - {k},
      if w.index && io.remove then l.rows - {k} else l.rows,
      if hit.Some? && w.assets && io.delete then l.blobs - {hit.value.hash} else l.blobs)
  }

  function ForgetSizes(size: string): seq<string> {
    if size in FORGET_SIZE_FANOUT then FORGET_SIZE_FANOUT else FORGET_SIZE_FANOUT + [size]
  }

  /** The sizes a refresh that asks for `size` reaches. */
  predicate IsRefreshed(asked: string, size: string) {
    asked == size || asked == "small" || asked == "medium" || asked == "large" || asked == "original"
  }

  function ForgetMany(l: Layers, w: Wiring, io: Io, scheme: string, value: string, sizes: seq<string>): Layers {
    if sizes == [] then l
    else ForgetOne(ForgetMany(l, w, io, scheme, value, sizes[..|sizes| - 1]), w, io,
                   Key(scheme, value, sizes[|sizes| - 1]))
  }

  /**
   Clear-all: the rows that can be removed, the bytes they are read to name, and both memos. `stuck`
   rows cannot be removed, `unread` ones not read, `kept` bytes not deleted.
   */
  function Swept(l: Layers, stuck: set<Key>, unread: set<Key>, kept: set<string>): Layers {
    Layers(N.EMPTY, map[], I.Stuck(l.rows, stuck), l.blobs - (I.HashesOf(l.rows - stuck - unread) - kept))
  }

  lemma NoRowsToSweep(stuck: set<Key>, unread: set<Key>)
    ensures I.Stuck(map[], stuck) == map[] && I.HashesOf(map[] - stuck - unread) == {}
  {
  }

  /** The bytes-present check: a row whose bytes are known to be gone is evicted. */
  function CheckBytes(l: Layers, w: Wiring, io: Io, k: Key, hash: string): (Layers, bool) {
    if !w.assets || !io.probe || hash in l.blobs then (l, true)
    else (if w.index && io.remove then l.(rows := l.rows - {k}) else l, false)
  }

  /** Use a hit for `k`, or evict what is wrong with it. */
  function UseHit(l: Layers, w: Wiring, io: Io, k: Key, hit: I.Hit): (Layers, bool) {
    if hit.version != CASCADE_LOGIC_VERSION then (ForgetOne(l, w, io, k), false)
    else CheckBytes(l, w, io, k, hit.hash)
  }

  /** What the layers are when the exact-size lookup did not answer. */
  function AfterExact(l: Layers, w: Wiring, io: Io, k: Key): (Layers, bool) {
    var exact := if w.index && io.read then I.Find(l.rows, k) else None;
    if exact.Some? then UseHit(l, w, io, k, exact.value) else (l, false)
  }

  datatype Tuning = Tuning(negativeTtl: nat, negativeCapacity: nat, memoTtl: nat)

  /** The negative memo after a note, if there is one, is written to it. */
  function Noted(st: N.Store, capacity: nat, k: Key, note: Option<Negative>, life: nat, at: nat): N.Store {
    match note
    case None => st
    case Some(n) => N.Put(st, capacity, k, N.Entry(n.status, n.detail, n.provider, at + life), at)
  }

  function AfterRun(l: Layers, tune: Tuning, k: Key, ran: bool, fetched: Outcome, later: nat): Layers {
    if !ran then l else l.(memo := l.memo[k := C.MemoEntry(fetched, later + tune.memoTtl)])
  }

  function AfterVerdict(l: Layers, tune: Tuning, k: Key, ran: bool, verdict: Option<Negative>, later: nat): Layers {
    if !ran then l
    else l.(negative := Noted(l.negative, tune.negativeCapacity, k, verdict, tune.negativeTtl, later))
  }

  function AfterCoalescer(l: Layers, tune: Tuning, k: Key, ran: bool, fetched: Outcome, verdict: Option<Negative>,
                          later: nat): Layers
  {
    AfterVerdict(AfterRun(l, tune, k, ran, fetched, later), tune, k, ran, verdict, later)
  }

  function WithRow(l: Layers, w: Wiring, io: Io, k: Key, hash: string): Layers {
    if w.index && io.write && I.IsValidContentHash(hash)
    then l.(rows := l.rows[k := I.Envelope(CASCADE_LOGIC_VERSION, hash)]) else l
  }

  /**
   What a resolve leaves behind after the coalescer answered `result`: a run leaves its verdict and
   its memo entry; a picture, run or remembered, is written to the index; a transient failure, run
   or remembered, leaves a short note.
   */
  function Remembered(l: Layers, w: Wiring, tune: Tuning, io: Io, k: Key, ran: bool, fetched: Outcome,
                      verdict: Option<Negative>, later: nat, result: Outcome): Layers
  {
    var after := AfterCoalescer(l, tune, k, ran, fetched, verdict, later);
    match result
    case Resolved(hash, _) => WithRow(after, w, io, k, hash)
    case Failed(_) =>
      after.(negative := Noted(after.negative, tune.negativeCapacity, k, TransientNote(Conclude(result)),
                               TRANSIENT_MEMO_TTL, later))
  }

  /** From the layers `mid` behind the index stage, its answer or else the coalescer's decides the rest. */
  ghost predicate Concluded(mid: Layers, l': Layers, w: Wiring, tune: Tuning, io: Io, k: Key,
                            answer: Option<(string, string)>, fetched: Outcome, verdict: Option<Negative>,
                            now: nat, later: nat, outcome: CascadeOutcome, ran: bool)
  {
    match answer
    case Some((hash, served)) =>
      l' == mid && !ran && outcome == Landed(hash, Some(IndexProvenance(k.size, served)))
    case None =>
      var result := if C.Fresh(mid.memo, k, now) then mid.memo[k].outcome else fetched;
      && ran == !C.Fresh(mid.memo, k, now) && outcome == Conclude(result)
      && l' == Remembered(mid, w, tune, io, k, ran, fetched, verdict, later, result)
  }

  /** The index stage, then its answer or else the coalescer's. */
  ghost predicate ResolvedBehindMemo(l: Layers, l': Layers, w: Wiring, tune: Tuning, io: Io, k: Key,
                                     fetched: Outcome, verdict: Option<Negative>, now: nat, later: nat,
                                     outcome: CascadeOutcome, ran: bool)
  {
    exists mid, answer ::
      && AnsweredFromIndex(l, mid, w, io, k, answer)
      && Concluded(mid, l', w, tune, io, k, answer, fetched, verdict, now, later, outcome, ran)
  }

  class ArtworkCascade {
    const negative: N.NegativeCache
    const coalescer: C.ArtworkResolveCoalescer
    const index: I.Index?
    const assets: AssetCache?

    ghost const Repr: set<object>

    ghost predicate Valid()
      reads this, Repr
    {
      && Repr == {negative, coalescer} + (if index == null then {} else {index})
                 + (if assets == null then {} else {assets})
      && negative.Valid() && coalescer.Valid()
    }

    ghost function View(): Layers
      reads this, Repr
      requires Valid()
    {
      Layers(negative.View(), coalescer.memo, if index == null then map[] else index.rows,
             if assets == null then {} else assets.blobs)
    }

    ghost function Wires(): Wiring {
      Wiring(index != null, assets != null)
    }

    ghost function Tunables(): Tuning {
      Tuning(negative.ttl, negative.capacity, coalescer.memoTtl)
    }

    constructor (negative: N.NegativeCache, coalescer: C.ArtworkResolveCoalescer, index: I.Index?, assets: AssetCache?)
      requires negative.Valid() && coalescer.Valid()
      ensures Valid()
      ensures this.negative == negative && this.coalescer == coalescer
      ensures this.index == index && this.assets == assets
    {
      this.negative, this.coalescer, this.index, this.assets := negative, coalescer, index, assets;
      Repr := {negative, coalescer} + (if index == null then {} else {index})
              + (if assets == null then {} else {assets});
    }

    /** Look the row up, then remove it. */
    method DropRow(k: Key, io: Io) returns (hit: Option<I.Hit>, entries: nat)
      requires Valid()
      modifies Repr
      ensures Valid() && coalescer.inflight == old(coalescer.inflight)
      ensures hit == if index != null && io.read then I.Find(old(View()).rows, k) else None
      ensures var before := old(View());
              && View() == before.(rows := if index != null && io.remove then before.rows - {k} else before.rows)
              && entries == |before.rows| - |View().rows|
    {
      hit, entries := None, 0;
      if index != null {
        RemovalCounts(index.rows, k);
        hit := index.Get(k, io.read);
        var removed := index.ForgetKey(k, io.remove);
        if removed == Some(true) {
          entries := 1;
        }
      }
    }

    method DropBlob(hash: string, io: Io) returns (deleted: nat)
      requires Valid()
      modifies Repr
      ensures Valid() && coalescer.inflight == old(coalescer.inflight)
      ensures var before := old(View());
              && View() == before.(blobs := if assets != null && io.delete then before.blobs - {hash} else before.blobs)
              && deleted == |before.blobs| - |View().blobs|
    {
      deleted := 0;
      if assets != null {
        var existed := assets.Delete(hash, io.delete);
        if existed == Some(true) {
          deleted := 1;
        }
      }
    }

    /** Reports how many rows and how many blobs were actually removed. */
    method ForgetOneSize(k: Key, io: Io) returns (entries: nat, deleted: nat)
      requires Valid()
      modifies Repr
      ensures Valid() && View() == ForgetOne(old(View()), Wires(), io, k)
      ensures coalescer.inflight == old(coalescer.inflight)
      ensures entries == |old(View()).rows| - |View().rows|
      ensures deleted == |old(View()).blobs| - |View().blobs|
    {
      negative.ForgetKey(k);
      coalescer.ForgetKey(k);
      var hit;
      hit, entries := DropRow(k, io);
      deleted := 0;
      if hit.Some? {
        deleted := DropBlob(hit.value.hash, io);
      }
    }

    method ForgetListed(scheme: string, value: string, sizes: seq<string>, io: Io) returns (entries: nat, deleted: nat)
      requires Valid()
      modifies Repr
      ensures Valid() && View() == ForgetMany(old(View()), Wires(), io, scheme, value, sizes)
      ensures coalescer.inflight == old(coalescer.inflight)
      ensures entries == |old(View()).rows| - |View().rows|
      ensures deleted == |old(View()).blobs| - |View().blobs|
    {
      entries, deleted := 0, 0;
      ghost var start := View();
      for i := 0 to |sizes|
        invariant Valid() && coalescer.inflight == old(coalescer.inflight)
        invariant View() == ForgetMany(start, Wires(), io, scheme, value, sizes[..i])
        invariant entries == |start.rows| - |View().rows|
        invariant deleted == |start.blobs| - |View().blobs|
      {
        assert sizes[..i + 1][..i] == sizes[..i];
        var e, d := ForgetOneSize(Key(scheme, value, sizes[i]), io);
        entries, deleted := entries + e, deleted + d;
      }
      assert sizes[..|sizes|] == sizes;
    }

    /** Forget a target: every size of the taxonomy, and the requested one if it is another. */
    method Forget(scheme: string, value: string, size: string, io: Io) returns (entries: nat, deleted: nat)
      requires Valid()
      modifies Repr
      ensures Valid() && View() == ForgetMany(old(View()), Wires(), io, scheme, value, ForgetSizes(size))
      ensures coalescer.inflight == old(coalescer.inflight)
      ensures entries == |old(View()).rows| - |View().rows|
      ensures deleted == |old(View()).blobs| - |View().blobs|
    {
      entries, deleted := ForgetListed(scheme, value, FORGET_SIZE_FANOUT, io);
      if size !in FORGET_SIZE_FANOUT {
        ForgetManyLast(old(View()), Wires(), io, scheme, value, FORGET_SIZE_FANOUT, size);
        var e, d := ForgetOneSize(Key(scheme, value, size), io);
        entries, deleted := entries + e, deleted + d;
      }
    }

    method SweepIndex(stuck: set<Key>, unread: set<Key>) returns (hashes: set<string>)
      requires Valid()
      modifies Repr
      ensures Valid() && coalescer.inflight == old(coalescer.inflight)
      ensures View() == old(View()).(rows := I.Stuck(old(View()).rows, stuck))
      ensures hashes == I.HashesOf(old(View()).rows - stuck - unread)
    {
      hashes := {};
      NoRowsToSweep(stuck, unread);
      if index != null {
        hashes := index.DropAll(stuck, unread);
      }
    }

    method SweepAssets(hashes: set<string>, kept: set<string>) returns (deleted: nat)
      requires Valid()
      modifies Repr
      ensures Valid() && coalescer.inflight == old(coalescer.inflight)
      ensures View() == old(View()).(blobs := old(View()).blobs - (hashes - kept))
      ensures deleted == |old(View()).blobs| - |View().blobs|
    {
      deleted := 0;
      if assets != null {
        deleted := assets.DeleteAll(hashes, kept);
      }
    }

    method ClearMemos()
      requires Valid()
      modifies Repr
      ensures Valid() && coalescer.inflight == old(coalescer.inflight)
      ensures View() == old(View()).(negative := N.EMPTY, memo := map[])
    {
      negative.Clear();
      coalescer.ClearAll();
    }

    /** The operator's clear-all: rows, the bytes they name, and both memos. Reports hashes, not rows. */
    method ForgetEverything(stuck: set<Key>, unread: set<Key>, kept: set<string>) returns (entries: nat, deleted: nat)
      requires Valid()
      modifies Repr
      ensures Valid() && coalescer.inflight == old(coalescer.inflight)
      ensures View() == Swept(old(View()), stuck, unread, kept)
      ensures entries == |I.HashesOf(old(View()).rows - stuck - unread)|
      ensures deleted == |old(View()).blobs| - |View().blobs|
    {
      ghost var before := View();
      var hashes := SweepIndex(stuck, unread);
      entries := |hashes|;
      deleted := SweepAssets(hashes, kept);
      ghost var mid := View();
      ClearMemos();
      assert View() == mid.(negative := N.EMPTY, memo := map[]);
    }

    method IndexEntryBytesPresent(k: Key, hash: string, io: Io) returns (present: bool)
      requires Valid()
      modifies Repr
      ensures Valid() && (View(), present) == CheckBytes(old(View()), Wires(), io, k, hash)
      ensures coalescer.inflight == old(coalescer.inflight)
    {
      if assets == null {
        return true;
      }
      var has := assets.Has(hash, io.probe);
      match has {
        case None => return true;
        case Some(true) => return true;
        case Some(false) =>
          if index != null {
            var _ := index.ForgetKey(k, io.remove);
          }
          return false;
      }
    }

    method TryHit(k: Key, hit: I.Hit, io: Io) returns (usable: bool)
      requires Valid()
      modifies Repr
      ensures Valid() && (View(), usable) == UseHit(old(View()), Wires(), io, k, hit)
      ensures coalescer.inflight == old(coalescer.inflight)
    {
      if hit.version != CASCADE_LOGIC_VERSION {
        var _, _ := ForgetOneSize(k, io);
        usable := false;
      } else {
        usable := IndexEntryBytesPresent(k, hit.hash, io);
      }
    }

    /** The index stage of a resolve: the exact size first, then the best stored larger one. */
    method ConsultIndex(k: Key, io: Io) returns (answer: Option<(string, string)>)
      requires Valid()
      modifies Repr
      ensures Valid() && coalescer.inflight == old(coalescer.inflight)
      ensures AnsweredFromIndex(old(View()), View(), Wires(), io, k, answer)
    {
      if index == null {
        return None;
      }
      var exact := index.Get(k, io.read);
      var usable := false;
      if exact.Some? {
        usable := TryHit(k, exact.value, io);
        if usable {
          return Some((exact.value.hash, k.size));
        }
      }
      assert (View(), false) == AfterExact(old(View()), Wires(), io, k);
      ghost var mid := View();
      var found := index.GetAnySize(k.scheme, k.value, k.size, io.read);
      if found.Some? {
        var (hit, served) := found.value;
        usable := TryHit(Key(k.scheme, k.value, served), hit, io);
        if usable {
          assert FallbackAnswered(mid, View(), Wires(), io, k, Some((hit.hash, served)), found);
          return Some((hit.hash, served));
        }
      }
      answer := None;
      assert FallbackAnswered(mid, View(), Wires(), io, k, answer, found);
    }

    /** The part of a resolve behind the negative memo. */
    method ResolveAnew(k: Key, fetched: Outcome, verdict: Option<Negative>, now: nat, later: nat, io: Io)
      returns (outcome: CascadeOutcome, ran: bool)
      requires Valid() && k !in coalescer.inflight && now <= later
      modifies Repr
      ensures Valid() && coalescer.inflight == old(coalescer.inflight)
      ensures NothingKnown(old(View()), k) ==> ran && outcome == Conclude(fetched)
      ensures ResolvedBehindMemo(old(View()), View(), Wires(), Tunables(), io, k, fetched, verdict, now, later,
                                 outcome, ran)
    {
      ghost var entered := View();
      var answer := ConsultIndex(k, io);
      ghost var mid := View();
      if NothingKnown(entered, k) { NothingKnownStays(entered, mid, Wires(), io, k, answer); }
      if answer.Some? {
        var (hash, served) := answer.value;
        outcome, ran := Landed(hash, Some(IndexProvenance(k.size, served))), false;
      } else {
        ghost var result;
        outcome, ran, result := CoalesceAndRemember(k, fetched, verdict, now, later, io);
      }
      assert Concluded(mid, View(), Wires(), Tunables(), io, k, answer, fetched, verdict, now, later, outcome, ran);
    }

    /**
     A whole resolve that no other task interleaves with. `fetched` and `verdict` are what one
     run of the provider tiers answers and memoises; `ran` says whether it was run.
     */
    method Resolve(k: Key, fetched: Outcome, verdict: Option<Negative>, now: nat, later: nat, io: Io)
      returns (outcome: CascadeOutcome, ran: bool)
      requires Valid() && k !in coalescer.inflight && now <= later
      modifies Repr
      ensures Valid() && coalescer.inflight == old(coalescer.inflight)
      ensures NothingKnown(old(View()), k) ==> ran && outcome == Conclude(fetched)
      ensures var (checked, hit) := N.Get(old(View()).negative, k, now);
              var entered := old(View()).(negative := checked);
              if hit.Some? then View() == entered && !ran && outcome == ReplayNegative(Verdict(hit.value))
              else ResolvedBehindMemo(entered, View(), Wires(), Tunables(), io, k, fetched, verdict, now, later,
                                      outcome, ran)
    {
      var remembered := negative.Lookup(k, now);
      if remembered.Some? {
        return ReplayNegative(Verdict(remembered.value)), false;
      }
      outcome, ran := ResolveAnew(k, fetched, verdict, now, later, io);
    }

    method RunAlone(k: Key, fetched: Outcome, now: nat, later: nat) returns (result: Outcome, ran: bool)
      requires Valid() && k !in coalescer.inflight && now <= later
      modifies coalescer
      ensures Valid() && coalescer.inflight == old(coalescer.inflight)
      ensures ran <==> !C.Fresh(old(View()).memo, k, now)
      ensures result == if ran then fetched else old(View()).memo[k].outcome
      ensures View() == AfterRun(old(View()), Tunables(), k, ran, fetched, later)
    {
      result, ran := coalescer.ResolveAlone(k, now, fetched, later);
    }

    /** The coalescer's answer; a run also leaves its verdict in the negative memo and its outcome in the memo. */
    method CoalesceAlone(k: Key, fetched: Outcome, verdict: Option<Negative>, now: nat, later: nat)
      returns (result: Outcome, ran: bool)
      requires Valid() && k !in coalescer.inflight && now <= later
      modifies Repr
      ensures Valid() && coalescer.inflight == old(coalescer.inflight)
      ensures ran <==> !C.Fresh(old(View()).memo, k, now)
      ensures result == if ran then fetched else old(View()).memo[k].outcome
      ensures View() == AfterCoalescer(old(View()), Tunables(), k, ran, fetched, verdict, later)
    {
      result, ran := RunAlone(k, fetched, now, later);
      NoteVerdict(k, ran, verdict, later);
    }

    method NoteVerdict(k: Key, ran: bool, verdict: Option<Negative>, later: nat)
      requires Valid()
      modifies negative
      ensures Valid() && coalescer.inflight == old(coalescer.inflight)
      ensures View() == AfterVerdict(old(View()), Tunables(), k, ran, verdict, later)
    {
      if ran && verdict.Some? {
        Note(k, verdict.value, negative.ttl, later);
      }
    }

    method Note(k: Key, note: Negative, life: nat, at: nat)
      requires Valid()
      modifies negative
      ensures Valid() && coalescer.inflight == old(coalescer.inflight)
      ensures View() ==
              old(View()).(negative := Noted(old(View()).negative, negative.capacity, k, Some(note), life, at))
    {
      negative.PutWithTtl(k, note.status, note.detail, note.provider, life, at, at);
    }

    /** A faulting index or a malformed hash is passed over in silence. */
    method RememberPositive(k: Key, hash: string, io: Io)
      requires Valid()
      modifies Repr
      ensures Valid() && coalescer.inflight == old(coalescer.inflight)
      ensures View() == WithRow(old(View()), Wires(), io, k, hash)
    {
      if index != null {
        var _ := index.Put(k, hash, CASCADE_LOGIC_VERSION, io.write);
      }
    }

    /** The part of a resolve behind the index: coalescer, providers, and what is remembered. */
    method CoalesceAndRemember(k: Key, fetched: Outcome, verdict: Option<Negative>, now: nat, later: nat, io: Io)
      returns (outcome: CascadeOutcome, ran: bool, ghost result: Outcome)
      requires Valid() && k !in coalescer.inflight && now <= later
      modifies Repr
      ensures Valid() && coalescer.inflight == old(coalescer.inflight)
      ensures ran <==> !C.Fresh(old(View()).memo, k, now)
      ensures result == if ran then fetched else old(View()).memo[k].outcome
      ensures outcome == Conclude(result)
      ensures View() == Remembered(old(View()), Wires(), Tunables(), io, k, ran, fetched, verdict, later, result)
    {
      var answer;
      answer, ran := CoalesceAlone(k, fetched, verdict, now, later);
      result := answer;
      outcome := Conclude(answer);
      match answer {
        case Resolved(hash, provider) =>
          RememberPositive(k, hash, io);
        case Failed(reason) =>
          var note := TransientNote(outcome);
          if note.Some? {
            Note(k, note.value, TRANSIENT_MEMO_TTL, later);
          }
      }
    }

    /**
     The refresh gesture: forget the target, then resolve one of its sizes. With working stores
     it always reaches the providers, whatever the layers held before.
     */
    method Refresh(scheme: string, value: string, size: string, asked: string,
                   fetched: Outcome, verdict: Option<Negative>, now: nat, later: nat)
      returns (outcome: CascadeOutcome, ran: bool)
      requires Valid() && now <= later
      requires IsRefreshed(asked, size) && Key(scheme, value, asked) !in coalescer.inflight
      modifies Repr
      ensures Valid() && ran && outcome == Conclude(fetched)
    {
      var _, _ := Forget(scheme, value, size, ALL_WORK);
      ForgetManyComplete(old(View()), Wires(), scheme, value, size);
      outcome, ran := Resolve(Key(scheme, value, asked), fetched, verdict, now, later, ALL_WORK);
    }
  }

  lemma ForgetManyLast(l: Layers, w: Wiring, io: Io, scheme: string, value: string, sizes: seq<string>, size: string)
    ensures ForgetMany(l, w, io, scheme, value, sizes + [size]) ==
            ForgetOne(ForgetMany(l, w, io, scheme, value, sizes), w, io, Key(scheme, value, size))
  {
    assert (sizes + [size])[..|sizes|] == sizes;
  }

  function Verdict(e: N.Entry): Negative {
    Negative(e.status, e.detail, e.provider)
  }

  function Conclude(o: Outcome): CascadeOutcome {
    match o
    case Resolved(hash, provider) => Landed(hash, provider)
    case Failed(reason) => ClassifyFetcherError(reason)
  }

  function IndexProvenance(size: string, served: string): string {
    if served == size then PROVENANCE_RESOLVE_INDEX
    else PROVENANCE_RESOLVE_INDEX + ":size_fallback:" + served
  }

  // ---------------------------------------------------------------------------
  // The index stage
  // ---------------------------------------------------------------------------

  /** The index stage took `l` to `l'` and answered `answer` (hash, size served). */
  ghost predicate AnsweredFromIndex(l: Layers, l': Layers, w: Wiring, io: Io, k: Key,
                                    answer: Option<(string, string)>)
  {
    if !w.index then l' == l && answer == None
    else
      var (mid, usable) := AfterExact(l, w, io, k);
      if usable then l' == mid && I.Find(l.rows, k).Some? && answer == Some((I.Find(l.rows, k).value.hash, k.size))
      else exists found :: FallbackAnswered(mid, l', w, io, k, answer, found)
  }

  ghost predicate FallbackAnswered(mid: Layers, l': Layers, w: Wiring, io: Io, k: Key,
                                   answer: Option<(string, string)>, found: Option<(I.Hit, string)>)
  {
    && (if io.read then I.BestStored(mid.rows, k.scheme, k.value, k.size, found) else found == None)
    && (match found
        case None => l' == mid && answer == None
        case Some((hit, served)) =>
          var (end, usable) := UseHit(mid, w, io, Key(k.scheme, k.value, served), hit);
          l' == end && answer == if usable then Some((hit.hash, served)) else None)
  }

  /**
   An answer from the index carries the current selection rules' version, has its bytes
   present whenever they could be probed, and is the requested size or a strictly larger one.
   */
  lemma IndexAnswerIsSound(l: Layers, l': Layers, w: Wiring, io: Io, k: Key, hash: string, served: string)
    requires AnsweredFromIndex(l, l', w, io, k, Some((hash, served)))
    ensures I.Find(l.rows, Key(k.scheme, k.value, served)) == Some(I.Hit(hash, 1))
    ensures w.assets && io.probe ==> hash in l.blobs
    ensures served == k.size || I.MayServe(served, k.size)
    ensures served != k.size ==>
              forall bigger :: I.MayServe(bigger, served) ==>
                I.Find(l.rows, Key(k.scheme, k.value, bigger)) == None
  {
    var (mid, usable) := AfterExact(l, w, io, k);
    if !usable {
      var found :| FallbackAnswered(mid, l', w, io, k, Some((hash, served)), found);
      assert forall j :: j != k ==> I.Find(mid.rows, j) == I.Find(l.rows, j);
    }
  }

  /** A row written before rows carried a version is never answered. */
  lemma UnversionedRowIsNotServed(l: Layers, l': Layers, w: Wiring, io: Io, k: Key, hash: string, served: string)
    requires AnsweredFromIndex(l, l', w, io, k, Some((hash, served)))
    ensures l.rows[Key(k.scheme, k.value, served)] == I.Envelope(1, hash)
  {
    IndexAnswerIsSound(l, l', w, io, k, hash, served);
    I.RowReadIff(l.rows[Key(k.scheme, k.value, served)], hash, 1);
  }

  /** How an index answer is labelled. */
  lemma IndexLabel(size: string, served: string)
    ensures IndexProvenance(size, served)
            == "resolve_index" + if served == size then "" else ":size_fallback:" + served
  {
    assert "resolve_index" + "" == "resolve_index";
  }

  /** The note of a transient failure lives five minutes. */
  lemma TransientNoteLives(l: Layers, w: Wiring, tune: Tuning, io: Io, k: Key, fetched: Outcome,
                           verdict: Option<Negative>, later: nat)
    requires fetched.Failed? && TransientNote(ClassifyFetcherError(fetched.reason)).Some?
    ensures var l' := Remembered(l, w, tune, io, k, true, fetched, verdict, later, fetched);
            k in l'.negative.entries && l'.negative.entries[k].expiresAt == later + 300
  {
  }

  /** `l'` is `l` with some things taken away. */
  ghost predicate OnlyForgets(l: Layers, l': Layers) {
    && l'.negative.order == l.negative.order
    && (forall j :: j in l'.negative.entries ==>
          j in l.negative.entries && l'.negative.entries[j] == l.negative.entries[j])
    && (forall j :: j in l'.memo ==> j in l.memo && l'.memo[j] == l.memo[j])
    && (forall j :: j in l'.rows ==> j in l.rows && l'.rows[j] == l.rows[j])
    && l'.blobs <= l.blobs
  }

  lemma UseHitOnlyForgets(l: Layers, w: Wiring, io: Io, k: Key, hit: I.Hit)
    ensures OnlyForgets(l, UseHit(l, w, io, k, hit).0)
  {
  }

  /** The index stage adds nothing to any layer. */
  lemma IndexStageOnlyForgets(l: Layers, l': Layers, w: Wiring, io: Io, k: Key, answer: Option<(string, string)>)
    requires AnsweredFromIndex(l, l', w, io, k, answer)
    ensures OnlyForgets(l, l')
  {
    var (mid, usable) := AfterExact(l, w, io, k);
    var exact := if w.index && io.read then I.Find(l.rows, k) else None;
    if exact.Some? { UseHitOnlyForgets(l, w, io, k, exact.value); }
    assert OnlyForgets(l, mid);
    if w.index && !usable {
      var found :| FallbackAnswered(mid, l', w, io, k, answer, found);
      FallbackOnlyForgets(mid, l', w, io, k, answer, found);
    }
  }

  lemma FallbackOnlyForgets(mid: Layers, l': Layers, w: Wiring, io: Io, k: Key,
                            answer: Option<(string, string)>, found: Option<(I.Hit, string)>)
    requires FallbackAnswered(mid, l', w, io, k, answer, found)
    ensures OnlyForgets(mid, l')
  {
    if found.Some? {
      UseHitOnlyForgets(mid, w, io, Key(k.scheme, k.value, found.value.1), found.value.0);
    }
  }

  // ---------------------------------------------------------------------------
  // Refresh completeness
  // ---------------------------------------------------------------------------

  /** No layer has anything that could answer `k`. */
  ghost predicate NothingKnown(l: Layers, k: Key) {
    && k !in l.negative.entries && k !in l.memo
    && (forall size :: size == k.size || I.MayServe(size, k.size) ==> Key(k.scheme, k.value, size) !in l.rows)
  }

  lemma NothingKnownStays(l: Layers, l': Layers, w: Wiring, io: Io, k: Key, answer: Option<(string, string)>)
    requires NothingKnown(l, k) && AnsweredFromIndex(l, l', w, io, k, answer)
    ensures answer == None && k !in l'.memo
  {
    if answer.Some? {
      IndexAnswerIsSound(l, l', w, io, k, answer.value.0, answer.value.1);
    }
    IndexStageOnlyForgets(l, l', w, io, k, answer);
  }

  ghost predicate Targets(k: Key, scheme: string, value: string, sizes: seq<string>) {
    k.scheme == scheme && k.value == value && k.size in sizes
  }

  /** With working stores, forgetting removes exactly the listed keys from the three layers. */
  lemma {:induction false} ForgetManyRemoves(l: Layers, w: Wiring, scheme: string, value: string, sizes: seq<string>)
    requires w.index
    ensures var l' := ForgetMany(l, w, ALL_WORK, scheme, value, sizes);
            && (forall k :: k in l'.negative.entries <==> k in l.negative.entries && !Targets(k, scheme, value, sizes))
            && (forall k :: k in l'.memo <==> k in l.memo && !Targets(k, scheme, value, sizes))
            && (forall k :: k in l'.rows <==> k in l.rows && !Targets(k, scheme, value, sizes))
            && (forall k :: k in l'.negative.entries ==> l'.negative.entries[k] == l.negative.entries[k])
            && (forall k :: k in l'.memo ==> l'.memo[k] == l.memo[k])
            && (forall k :: k in l'.rows ==> l'.rows[k] == l.rows[k])
  {
    if sizes != [] {
      var front, last := sizes[..|sizes| - 1], sizes[|sizes| - 1];
      ForgetManyRemoves(l, w, scheme, value, front);
      assert sizes == front + [last];
      assert forall k :: Targets(k, scheme, value, sizes) <==>
                         Targets(k, scheme, value, front) || k == Key(scheme, value, last);
    }
  }

  lemma {:induction false} ForgetManyUnindexed(l: Layers, w: Wiring, scheme: string, value: string, sizes: seq<string>)
    requires !w.index
    ensures var l' := ForgetMany(l, w, ALL_WORK, scheme, value, sizes);
            && (forall k :: k in l'.negative.entries <==> k in l.negative.entries && !Targets(k, scheme, value, sizes))
            && (forall k :: k in l'.memo <==> k in l.memo && !Targets(k, scheme, value, sizes))
            && l'.rows == l.rows
  {
    if sizes != [] {
      var front, last := sizes[..|sizes| - 1], sizes[|sizes| - 1];
      ForgetManyUnindexed(l, w, scheme, value, front);
      assert sizes == front + [last];
      assert forall k :: Targets(k, scheme, value, sizes) <==>
                         Targets(k, scheme, value, front) || k == Key(scheme, value, last);
    }
  }

  /** After a refresh, nothing is known of any size of the target, and only of that target. */
  lemma ForgetManyComplete(l: Layers, w: Wiring, scheme: string, value: string, size: string)
    requires !w.index ==> l.rows == map[]
    ensures var l' := ForgetMany(l, w, ALL_WORK, scheme, value, ForgetSizes(size));
            forall asked :: IsRefreshed(asked, size) ==> NothingKnown(l', Key(scheme, value, asked))
  {
    var l' := ForgetMany(l, w, ALL_WORK, scheme, value, ForgetSizes(size));
    if w.index {
      ForgetManyRemoves(l, w, scheme, value, ForgetSizes(size));
    } else {
      ForgetManyUnindexed(l, w, scheme, value, ForgetSizes(size));
    }
    forall asked | IsRefreshed(asked, size) ensures NothingKnown(l', Key(scheme, value, asked)) {
      AskedIsForgotten(asked, size);
      assert Targets(Key(scheme, value, asked), scheme, value, ForgetSizes(size));
      forall s | s == asked || I.MayServe(s, asked) ensures Key(scheme, value, s) !in l'.rows {
        if s != asked { TaxonomyIsForgotten(s, size); }
        assert Targets(Key(scheme, value, s), scheme, value, ForgetSizes(size));
      }
    }
  }

  lemma AskedIsForgotten(asked: string, size: string)
    requires IsRefreshed(asked, size)
    ensures asked in ForgetSizes(size)
  {
    if asked == size {
      if size !in FORGET_SIZE_FANOUT { assert (FORGET_SIZE_FANOUT + [size])[|FORGET_SIZE_FANOUT|] == size; }
    } else {
      TaxonomyIsForgotten(asked, size);
    }
  }

  lemma TaxonomyIsForgotten(s: string, size: string)
    requires I.SizeRank(s).Some?
    ensures s in ForgetSizes(size)
  {
    assert FORGET_SIZE_FANOUT[0] == "small" && FORGET_SIZE_FANOUT[1] == "medium";
    assert FORGET_SIZE_FANOUT[2] == "large" && FORGET_SIZE_FANOUT[3] == "original";
    assert s in FORGET_SIZE_FANOUT;
  }
}
