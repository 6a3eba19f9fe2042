/** Rows that name bytes the asset cache does not hold, and how forgetting makes them. */
module CascadeDangling {
  import opened Common
  import opened ArtworkTypes
  import opened CascadeTiers
  import opened Cascade
  import C = Coalescer
  import I = ResolveIndex

  /** A row whose bytes are missing. */
  predicate Dangling(l: Layers, k: Key) {
    I.Find(l.rows, k).Some? && I.Find(l.rows, k).value.hash !in l.blobs
  }

  /** A row whose bytes are there. */
  predicate Backed(l: Layers, k: Key) {
    I.Find(l.rows, k).Some? && I.Find(l.rows, k).value.hash in l.blobs
  }

  predicate Names(l: Layers, k: Key, hash: string) {
    I.Find(l.rows, k).Some? && I.Find(l.rows, k).value.hash == hash
  }

  /** One of the sizes has a row that names these bytes. */
  predicate TargetNames(l: Layers, scheme: string, value: string, sizes: seq<string>, hash: string) {
    exists size :: size in sizes && Names(l, Key(scheme, value, size), hash)
  }

  /** Rows can be looked up and bytes deleted. */
  predicate BytesGo(w: Wiring, io: Io) {
    w.index && w.assets && io.read && io.delete
  }

  // ---------------------------------------------------------------------------
  // Forgetting a target
  // ---------------------------------------------------------------------------

  lemma TargetsFront(k: Key, scheme: string, value: string, sizes: seq<string>)
    requires sizes != []
    ensures Targets(k, scheme, value, sizes) <==>
            Targets(k, scheme, value, sizes[..|sizes| - 1]) || k == Key(scheme, value, sizes[|sizes| - 1])
  {
    assert sizes == sizes[..|sizes| - 1] + [sizes[|sizes| - 1]];
  }

  lemma TargetNamesFront(l: Layers, scheme: string, value: string, sizes: seq<string>, hash: string)
    requires sizes != []
    ensures TargetNames(l, scheme, value, sizes, hash) <==>
            TargetNames(l, scheme, value, sizes[..|sizes| - 1], hash)
            || Names(l, Key(scheme, value, sizes[|sizes| - 1]), hash)
  {
    assert sizes == sizes[..|sizes| - 1] + [sizes[|sizes| - 1]];
  }

  /** A row of the target goes where removing works; every other row stays as it was. */
  lemma {:induction false} RowAfterForget(l: Layers, w: Wiring, io: Io, scheme: string, value: string,
                                          sizes: seq<string>, k: Key)
    ensures I.Find(ForgetMany(l, w, io, scheme, value, sizes).rows, k) ==
            if w.index && io.remove && Targets(k, scheme, value, sizes) then None else I.Find(l.rows, k)
  {
    if sizes != [] {
      RowAfterForget(l, w, io, scheme, value, sizes[..|sizes| - 1], k);
      TargetsFront(k, scheme, value, sizes);
    }
  }

  lemma {:induction false} MemoAfterForget(l: Layers, w: Wiring, io: Io, scheme: string, value: string,
                                           sizes: seq<string>, k: Key)
    requires !Targets(k, scheme, value, sizes)
    ensures var l' := ForgetMany(l, w, io, scheme, value, sizes);
            (k in l'.memo <==> k in l.memo) && (k in l.memo ==> l'.memo[k] == l.memo[k])
  {
    if sizes != [] {
      TargetsFront(k, scheme, value, sizes);
      MemoAfterForget(l, w, io, scheme, value, sizes[..|sizes| - 1], k);
    }
  }

  /** The bytes that go are those some row of the target names. */
  lemma {:induction false} BytesAfterForget(l: Layers, w: Wiring, io: Io, scheme: string, value: string,
                                            sizes: seq<string>, hash: string)
    ensures hash in ForgetMany(l, w, io, scheme, value, sizes).blobs <==>
            hash in l.blobs && !(BytesGo(w, io) && TargetNames(l, scheme, value, sizes, hash))
  {
    if sizes != [] {
      var front, last := sizes[..|sizes| - 1], Key(scheme, value, sizes[|sizes| - 1]);
      BytesAfterForget(l, w, io, scheme, value, front, hash);
      TargetNamesFront(l, scheme, value, sizes, hash);
      RowAfterForget(l, w, io, scheme, value, front, last);
    }
  }

  /**
   Bytes are shared between targets and deleted even when removing a row failed. Forgetting a target
   takes the bytes away under a row exactly when the row stays, some row of the target names the same
   bytes, and bytes can be deleted.
   */
  lemma ForgetLeavesDanglingRowIff(l: Layers, w: Wiring, io: Io, scheme: string, value: string, sizes: seq<string>,
                                   k: Key)
    requires Backed(l, k)
    ensures Dangling(ForgetMany(l, w, io, scheme, value, sizes), k) <==>
            && BytesGo(w, io) && TargetNames(l, scheme, value, sizes, I.Find(l.rows, k).value.hash)
            && !(io.remove && Targets(k, scheme, value, sizes))
  {
    RowAfterForget(l, w, io, scheme, value, sizes, k);
    BytesAfterForget(l, w, io, scheme, value, sizes, I.Find(l.rows, k).value.hash);
  }

  /** With every store working, no row of the target is left, but a row of another target can lose its bytes. */
  lemma SharedBytesGoIff(l: Layers, scheme: string, value: string, size: string, k: Key)
    requires Backed(l, k) && !Targets(k, scheme, value, ForgetSizes(size))
    ensures var l' := ForgetMany(l, Wiring(true, true), ALL_WORK, scheme, value, ForgetSizes(size));
            Backed(l', k) <==> !TargetNames(l, scheme, value, ForgetSizes(size), I.Find(l.rows, k).value.hash)
  {
    ForgetLeavesDanglingRowIff(l, Wiring(true, true), ALL_WORK, scheme, value, ForgetSizes(size), k);
    RowAfterForget(l, Wiring(true, true), ALL_WORK, scheme, value, ForgetSizes(size), k);
  }

  // ---------------------------------------------------------------------------
  // A remembered picture whose bytes another target's refresh took
  // ---------------------------------------------------------------------------

  /** Every readable row of the key's target is of the current version. */
  ghost predicate CurrentRows(l: Layers, scheme: string, value: string) {
    forall size :: I.Find(l.rows, Key(scheme, value, size)).Some? ==>
      I.Find(l.rows, Key(scheme, value, size)).value.version == CASCADE_LOGIC_VERSION
  }

  lemma CurrentHitKeepsBytes(l: Layers, w: Wiring, io: Io, k: Key, hit: I.Hit)
    requires hit.version == CASCADE_LOGIC_VERSION
    ensures UseHit(l, w, io, k, hit).0.blobs == l.blobs && UseHit(l, w, io, k, hit).0.memo == l.memo
  {
  }

  /** Where all rows are current the index stage touches neither bytes nor memo. */
  lemma IndexStageKeepsBytes(l: Layers, mid: Layers, w: Wiring, io: Io, k: Key)
    requires AnsweredFromIndex(l, mid, w, io, k, None) && CurrentRows(l, k.scheme, k.value)
    ensures mid.blobs == l.blobs && mid.memo == l.memo
  {
    if w.index {
      var (after, usable) := AfterExact(l, w, io, k);
      var exact := if io.read then I.Find(l.rows, k) else None;
      assert k == Key(k.scheme, k.value, k.size);
      if exact.Some? { CurrentHitKeepsBytes(l, w, io, k, exact.value); }
      assert after.blobs == l.blobs && after.memo == l.memo;
      assert forall j :: I.Find(after.rows, j).Some? ==> I.Find(after.rows, j) == I.Find(l.rows, j);
      var found :| FallbackAnswered(after, mid, w, io, k, None, found);
      if found.Some? {
        CurrentHitKeepsBytes(after, w, io, Key(k.scheme, k.value, found.value.1), found.value.0);
      }
    }
  }

  /** A remembered picture is answered and written to the index without a look at its bytes. */
  lemma MemoHitWritesRow(mid: Layers, l': Layers, w: Wiring, tune: Tuning, io: Io, k: Key,
                         fetched: Outcome, verdict: Option<Negative>, now: nat, later: nat,
                         outcome: CascadeOutcome, ran: bool)
    requires Concluded(mid, l', w, tune, io, k, None, fetched, verdict, now, later, outcome, ran)
    requires C.Fresh(mid.memo, k, now) && mid.memo[k].outcome.Resolved?
    requires w.index && io.write && I.IsValidContentHash(mid.memo[k].outcome.hash)
    ensures !ran && outcome.Landed? && outcome.hash == mid.memo[k].outcome.hash && l'.blobs == mid.blobs
    ensures I.Find(l'.rows, k) == Some(I.Hit(outcome.hash, CASCADE_LOGIC_VERSION))
  {
  }

  /**
   A picture is remembered for `k` with its bytes there; another target is refreshed; then `k` is
   resolved and the index does not answer. The remembered picture is answered, and the row it leaves
   has no bytes exactly when the refreshed target had a row that named the same bytes and they could
   be deleted.
   */
  lemma RefreshThenMemoHitDanglesIff(l: Layers, w: Wiring, tune: Tuning, io: Io, scheme: string, value: string,
                                     sizes: seq<string>, k: Key, mid: Layers, l': Layers, resolveIo: Io,
                                     fetched: Outcome, verdict: Option<Negative>, now: nat, later: nat,
                                     outcome: CascadeOutcome, ran: bool)
    requires C.Fresh(l.memo, k, now) && l.memo[k].outcome.Resolved? && l.memo[k].outcome.hash in l.blobs
    requires I.IsValidContentHash(l.memo[k].outcome.hash) && CurrentRows(l, k.scheme, k.value)
    requires !Targets(k, scheme, value, sizes) && w.index && resolveIo.write
    requires AnsweredFromIndex(ForgetMany(l, w, io, scheme, value, sizes), mid, w, resolveIo, k, None)
    requires Concluded(mid, l', w, tune, resolveIo, k, None, fetched, verdict, now, later, outcome, ran)
    ensures !ran && outcome == Landed(l.memo[k].outcome.hash, l.memo[k].outcome.provider)
    ensures Dangling(l', k) <==> BytesGo(w, io) && TargetNames(l, scheme, value, sizes, l.memo[k].outcome.hash)
  {
    var refreshed := ForgetMany(l, w, io, scheme, value, sizes);
    MemoAfterForget(l, w, io, scheme, value, sizes, k);
    BytesAfterForget(l, w, io, scheme, value, sizes, l.memo[k].outcome.hash);
    forall size | I.Find(refreshed.rows, Key(k.scheme, k.value, size)).Some?
      ensures I.Find(refreshed.rows, Key(k.scheme, k.value, size)).value.version == CASCADE_LOGIC_VERSION
    {
      RowAfterForget(l, w, io, scheme, value, sizes, Key(k.scheme, k.value, size));
    }
    IndexStageKeepsBytes(refreshed, mid, w, resolveIo, k);
    MemoHitWritesRow(mid, l', w, tune, resolveIo, k, fetched, verdict, now, later, outcome, ran);
  }

  // ---------------------------------------------------------------------------
  // Clearing everything
  // ---------------------------------------------------------------------------

  /** A row that outlives clear-all loses its bytes exactly when a removed row was read to name them too. */
  lemma ClearAllLeavesDanglingRowIff(l: Layers, stuck: set<Key>, unread: set<Key>, kept: set<string>, k: Key)
    requires Backed(l, k)
    ensures Dangling(Swept(l, stuck, unread, kept), k) <==>
            && k in stuck && I.Find(l.rows, k).value.hash !in kept
            && exists j :: j !in stuck && j !in unread && Names(l, j, I.Find(l.rows, k).value.hash)
  {
    var hash := I.Find(l.rows, k).value.hash;
    var removed := l.rows - stuck - unread;
    if j :| j !in stuck && j !in unread && Names(l, j, hash) {
      assert j in removed && removed[j] == l.rows[j];
    }
    if hash in I.HashesOf(removed) {
      var j :| j in removed && I.ReadRow(removed[j]).Some? && I.ReadRow(removed[j]).value.hash == hash;
      assert Names(l, j, hash);
    }
  }

  /** Every row can be read and names bytes of its own. */
  ghost predicate OneHashEach(rows: map<Key, I.Row>) {
    && (forall k :: k in rows ==> I.Find(rows, k).Some?)
    && (forall j, k :: j in rows && k in rows && j != k ==> I.Find(rows, j).value.hash != I.Find(rows, k).value.hash)
  }

  lemma {:induction false} HashesCountRowsIff(rows: map<Key, I.Row>)
    ensures |I.HashesOf(rows)| <= |rows|
    ensures |I.HashesOf(rows)| == |rows| <==> OneHashEach(rows)
    decreases |rows|
  {
    if rows == map[] {
      assert I.HashesOf(rows) == {};
    } else {
      var k :| k in rows;
      var rest := rows - {k};
      RowsButOne(rows, k);
      HashesCountRowsIff(rest);
      OneHashEachButOne(rows, k);
    }
  }

  lemma RowsButOne(rows: map<Key, I.Row>, k: Key)
    requires k in rows
    ensures |rows - {k}| == |rows| - 1
    ensures I.HashesOf(rows) == I.HashesOf(rows - {k})
                                + if I.Find(rows, k).Some? then {I.Find(rows, k).value.hash} else {}
  {
    assert rows.Keys == (rows - {k}).Keys + {k};
    I.HashesOfOneMore(rows, {k}, k);
    assert rows - ({k} - {k}) == rows;
  }

  lemma OneHashEachButOne(rows: map<Key, I.Row>, k: Key)
    requires k in rows
    ensures OneHashEach(rows) <==>
            OneHashEach(rows - {k}) && I.Find(rows, k).Some?
            && I.Find(rows, k).value.hash !in I.HashesOf(rows - {k})
  {
    var rest := rows - {k};
    forall j | j in rest ensures I.Find(rest, j) == I.Find(rows, j) {}
    if OneHashEach(rest) && I.Find(rows, k).Some? && I.Find(rows, k).value.hash !in I.HashesOf(rest) {
      forall j | j in rest ensures I.Find(rows, j).value.hash != I.Find(rows, k).value.hash {
        assert I.ReadRow(rest[j]).Some? && I.ReadRow(rest[j]).value.hash in I.HashesOf(rest);
      }
    }
  }

  /** Clear-all reports as many entries as rows it removed exactly when each was read and names bytes of its own. */
  lemma ClearAllCountsRowsIff(l: Layers, stuck: set<Key>, unread: set<Key>)
    ensures |I.HashesOf(l.rows - stuck - unread)| == |l.rows| - |I.Stuck(l.rows, stuck)| <==>
            OneHashEach(l.rows - stuck) && (l.rows - stuck).Keys !! unread
  {
    var removed := l.rows - stuck;
    var counted := removed - unread;
    assert removed.Keys + I.Stuck(l.rows, stuck).Keys == l.rows.Keys;
    assert |removed| == |l.rows| - |I.Stuck(l.rows, stuck)|;
    HashesCountRowsIff(counted);
    assert counted.Keys <= removed.Keys;
    if removed.Keys !! unread {
      assert counted == removed;
    } else {
      var k :| k in removed && k in unread;
      assert counted.Keys <= removed.Keys - {k};
      SubsetCardinality(counted.Keys, removed.Keys - {k});
    }
  }
}
