/** The coalescer protocol's invariant holds initially and is kept by every step. */
module CoalescerInvariant {
  import opened Common
  import opened ArtworkTypes
  import opened Coalescer
  import opened CoalescerProtocol

  /** History only grows: channels that ended keep their end, fetches keep their outcome. */
  ghost predicate Extends(s: State, s': State) {
    && TablesOk(s) && TablesOk(s')
    && s.ttl == s'.ttl && s.now <= s'.now
    && |s.births| <= |s'.births|
    && (forall c: nat :: c < |s.births| ==> s'.births[c] == s.births[c])
    && (forall c: nat :: c < |s.births| && !s.tables.channels[c].Open? ==>
          s'.tables.channels[c] == s.tables.channels[c])
    && (forall c :: c in s.fetches ==> c in s'.fetches && s'.fetches[c] == s.fetches[c])
  }

  lemma RanForKept(s: State, s': State, k: Key, o: Outcome)
    requires Extends(s, s') && RanFor(s, k, o)
    ensures RanFor(s', k, o)
  {
    var c: nat :| CameFrom(s, k, c, o);
    assert CameFrom(s', k, c, o);
  }

  lemma DroppedFetchesGrow(s: State, s': State, k: Key)
    requires Extends(s, s')
    ensures DroppedFetches(s, k) <= DroppedFetches(s', k)
  {
  }

  /** What another task's step must leave alone for this task to stay in order. */
  ghost predicate Undisturbed(s: State, s': State, t: TaskId)
    requires t in s.tasks
  {
    && t in s'.tasks && s'.tasks[t] == s.tasks[t]
    && (HoldsGuard(s.tasks[t].pc) ==>
          && s.tasks[t].key in s'.tables.inflight && s.tasks[t].key in s.tables.inflight
          && s'.tables.inflight[s.tasks[t].key] == s.tables.inflight[s.tasks[t].key])
    && (s.tasks[t].pc.Fetching? ==> s.tasks[t].pc.chan !in s'.fetches)
  }

  lemma TaskKept(s: State, s': State, t: TaskId)
    requires Extends(s, s') && t in s.tasks && TaskOk(s, t) && Undisturbed(s, s', t)
    ensures TaskOk(s', t)
  {
    DroppedFetchesGrow(s, s', s.tasks[t].key);
    match s.tasks[t].pc
    case Answered(o, FromMemo(_, _)) => RanForKept(s, s', s.tasks[t].key, o);
    case _ =>
  }

  lemma MemoKept(s: State, s': State, k: Key)
    requires Extends(s, s') && k in s.tables.memo && MemoOk(s, k)
    requires k in s'.tables.memo && s'.tables.memo[k] == s.tables.memo[k]
    ensures MemoOk(s', k)
  {
    RanForKept(s, s', k, s.tables.memo[k].outcome);
  }

  /** Two live guards for one key are one guard. */
  lemma OneGuardPerKey(s: State, t: TaskId, u: TaskId)
    requires Inv(s) && t in s.tasks && u in s.tasks
    requires HoldsGuard(s.tasks[t].pc) && HoldsGuard(s.tasks[u].pc)
    requires s.tasks[t].key == s.tasks[u].key
    ensures t == u
  {
    assert TaskOk(s, t) && TaskOk(s, u);
  }

  /** A step that moves one task without touching slots, channels or births keeps the rest. */
  lemma OthersKept(s: State, s': State, t: TaskId)
    requires Inv(s) && Extends(s, s')
    requires forall u :: u in s.tasks && u != t ==> Undisturbed(s, s', u)
    requires s'.tasks.Keys == s.tasks.Keys + {t}
    ensures forall u :: u in s'.tasks && u != t ==> TaskOk(s', u)
  {
    forall u | u in s'.tasks && u != t ensures TaskOk(s', u) {
      assert TaskOk(s, u);
      TaskKept(s, s', u);
    }
  }

  /** Entries that were there before are still in order. */
  lemma MemosKept(s: State, s': State)
    requires Inv(s) && Extends(s, s')
    requires forall k :: k in s'.tables.memo ==> k in s.tables.memo && s'.tables.memo[k] == s.tables.memo[k]
    ensures forall k :: k in s'.tables.memo ==> MemoOk(s', k)
  {
    forall k | k in s'.tables.memo ensures MemoOk(s', k) { assert MemoOk(s, k); MemoKept(s, s', k); }
  }

  /** While slots and channels stay, only a task that lets go of its guard could disturb them. */
  lemma SlotsKept(s: State, s': State, t: TaskId)
    requires Inv(s) && Extends(s, s')
    requires s'.tables.inflight == s.tables.inflight && s'.tables.channels == s.tables.channels
    requires s'.births == s.births
    requires forall u :: u in s.tasks && u != t ==> u in s'.tasks && s'.tasks[u] == s.tasks[u]
    requires t in s.tasks && HoldsGuard(s.tasks[t].pc) ==>
               && t in s'.tasks && HoldsGuard(s'.tasks[t].pc) && s'.tasks[t].pc.chan == s.tasks[t].pc.chan
               && s'.tasks[t].key == s.tasks[t].key
    ensures forall k :: k in s'.tables.inflight ==> SlotOwned(s', k)
    ensures forall c: nat :: c < |s'.births| ==> ChannelOk(s', c)
  {
    forall k | k in s'.tables.inflight ensures SlotOwned(s', k) { assert SlotOwned(s, k); }
    forall c: nat | c < |s'.births| ensures ChannelOk(s', c) { assert ChannelOk(s, c); }
  }

  /** Only `t` moves, slots and channels stay, and a fetch that ends is `t`'s own. */
  ghost predicate MovesOnly(s: State, s': State, t: TaskId) {
    && t in s'.tasks && s'.tasks == s.tasks[t := s'.tasks[t]]
    && s'.tables.inflight == s.tables.inflight && s'.tables.channels == s.tables.channels
    && s'.births == s.births
    && (forall c :: c in s'.fetches && c !in s.fetches ==>
          t in s.tasks && HoldsGuard(s.tasks[t].pc) && c == s.tasks[t].pc.chan)
  }

  lemma OthersUndisturbed(s: State, s': State, t: TaskId)
    requires Inv(s) && MovesOnly(s, s', t)
    ensures forall u :: u in s.tasks && u != t ==> Undisturbed(s, s', u)
  {
    forall u | u in s.tasks && u != t ensures Undisturbed(s, s', u) {
      assert TaskOk(s, u);
      if t in s.tasks { assert TaskOk(s, t); }
    }
  }

  /** A fetcher that moves on with its guard is in order when its fetch has left its outcome. */
  lemma GuardMovesOn(s: State, s': State, t: TaskId)
    requires Extends(s, s') && MovesOnly(s, s', t) && t in s.tasks && TaskOk(s, t)
    requires HoldsGuard(s.tasks[t].pc)
    requires (s'.tasks[t].pc.Fetched? || s'.tasks[t].pc.Memoised?) && s'.tasks[t].pc.chan == s.tasks[t].pc.chan
    requires s'.tasks[t] == s.tasks[t].(pc := s'.tasks[t].pc, steps := s.tasks[t].steps + 1)
    requires Progress(s'.tasks[t].pc) == Progress(s.tasks[t].pc) + 1
    requires s.tasks[t].pc.chan in s'.fetches && s'.fetches[s.tasks[t].pc.chan] == s'.tasks[t].pc.outcome
    ensures TaskOk(s', t)
  {
    DroppedFetchesGrow(s, s', s.tasks[t].key);
  }

  /**
   A step of `t` that leaves slots and channels alone and at most loses memo entries:
   only `t` itself has anything to show.
   */
  lemma QuietStepKeeps(s: State, s': State, t: TaskId)
    requires Inv(s) && Extends(s, s') && MovesOnly(s, s', t)
    requires forall k :: k in s'.tables.memo ==> k in s.tables.memo && s'.tables.memo[k] == s.tables.memo[k]
    requires t in s.tasks && HoldsGuard(s.tasks[t].pc) ==>
               && HoldsGuard(s'.tasks[t].pc) && s'.tasks[t].pc.chan == s.tasks[t].pc.chan
               && s'.tasks[t].key == s.tasks[t].key
    requires TaskOk(s', t)
    ensures Inv(s')
  {
    OthersUndisturbed(s, s', t);
    OthersKept(s, s', t);
    MemosKept(s, s');
    SlotsKept(s, s', t);
    FetchesHaveChannels(s, s', t);
  }

  lemma FetchesHaveChannels(s: State, s': State, t: TaskId)
    requires Inv(s) && MovesOnly(s, s', t)
    ensures forall c :: c in s'.fetches ==> c < |s'.births|
  {
    if t in s.tasks { assert TaskOk(s, t); }
  }

  lemma CallKeeps(s: State, t: TaskId, k: Key)
    requires Inv(s) && Enabled(s, Call(t, k))
    ensures Inv(Apply(s, Call(t, k)))
  {
    QuietStepKeeps(s, Apply(s, Call(t, k)), t);
  }

  lemma LookUpKeeps(s: State, t: TaskId)
    requires Inv(s) && Enabled(s, LookUp(t))
    ensures Inv(Apply(s, LookUp(t)))
  {
    var s' := Apply(s, LookUp(t));
    assert TaskOk(s, t);
    DroppedFetchesGrow(s, s', s.tasks[t].key);
    if s'.tasks[t].pc.Answered? {
      assert MemoOk(s, s.tasks[t].key);
      RanForKept(s, s', s.tasks[t].key, s'.tasks[t].pc.outcome);
    }
    assert TaskOk(s', t);
    QuietStepKeeps(s, s', t);
  }

  lemma EnterKeeps(s: State, t: TaskId)
    requires Inv(s) && Enabled(s, Enter(t))
    ensures Inv(Apply(s, Enter(t)))
  {
    var k := s.tasks[t].key;
    assert TaskOk(s, t);
    if k in s.tables.inflight {
      JoinKeeps(s, t);
    } else {
      ClaimKeeps(s, t);
    }
  }

  lemma JoinKeeps(s: State, t: TaskId)
    requires Inv(s) && Enabled(s, Enter(t)) && s.tasks[t].key in s.tables.inflight
    ensures Inv(Apply(s, Enter(t)))
  {
    var s' := Apply(s, Enter(t));
    assert TaskOk(s, t) && SlotOwned(s, s.tasks[t].key);
    DroppedFetchesGrow(s, s', s.tasks[t].key);
    assert s'.tasks[t].pc.chan !in s.tasks[t].retried;
    QuietStepKeeps(s, s', t);
  }

  /** Claiming appends one open channel, owned by the claimer, and nothing else. */
  lemma ClaimKeeps(s: State, t: TaskId)
    requires Inv(s) && Enabled(s, Enter(t)) && s.tasks[t].key !in s.tables.inflight
    ensures Inv(Apply(s, Enter(t)))
  {
    var s' := Apply(s, Enter(t));
    assert TaskOk(s, t);
    assert s'.tasks[t] == s.tasks[t].(pc := Fetching(|s.births|), steps := s.tasks[t].steps + 1);
    assert Extends(s, s');
    ClaimKeepsTasks(s, s', t);
    MemosKept(s, s');
    ClaimKeepsSlots(s, s', t);
  }

  /** The claimer's new slot is its own, and the slots of other keys stay as they were. */
  lemma ClaimKeepsSlots(s: State, s': State, t: TaskId)
    requires Inv(s) && Extends(s, s') && t in s.tasks && s.tasks[t].pc.Missed?
    requires s'.tasks == s.tasks[t := s.tasks[t].(pc := Fetching(|s.births|), steps := s.tasks[t].steps + 1)]
    requires s.tasks[t].key !in s.tables.inflight && s'.fetches == s.fetches
    requires s'.tables.inflight == s.tables.inflight[s.tasks[t].key := |s.births|]
    requires s'.tables.channels == s.tables.channels + [Open]
    requires s'.births == s.births + [Birth(s.tasks[t].key, t)]
    ensures forall k :: k in s'.tables.inflight ==> SlotOwned(s', k)
    ensures forall c: nat :: c < |s'.births| ==> ChannelOk(s', c)
  {
    forall j | j in s'.tables.inflight ensures SlotOwned(s', j) {
      if j != s.tasks[t].key { assert SlotOwned(s, j); }
    }
    forall c: nat | c < |s'.births| ensures ChannelOk(s', c) {
      if c < |s.births| { assert ChannelOk(s, c); }
    }
  }

  lemma ClaimKeepsTasks(s: State, s': State, t: TaskId)
    requires Inv(s) && Extends(s, s') && t in s.tasks && s.tasks[t].pc.Missed?
    requires s'.tasks == s.tasks[t := s.tasks[t].(pc := Fetching(|s.births|), steps := s.tasks[t].steps + 1)]
    requires s.tasks[t].key !in s.tables.inflight
    requires s'.tables.inflight == s.tables.inflight[s.tasks[t].key := |s.births|]
    requires s'.births == s.births + [Birth(s.tasks[t].key, t)] && s'.fetches == s.fetches
    ensures forall u :: u in s'.tasks ==> TaskOk(s', u)
  {
    assert TaskOk(s, t);
    DroppedFetchesGrow(s, s', s.tasks[t].key);
    assert TaskOk(s', t);
    forall u | u in s.tasks && u != t ensures Undisturbed(s, s', u) { assert TaskOk(s, u); }
    OthersKept(s, s', t);
  }

  lemma FetchEndsKeeps(s: State, t: TaskId, o: Outcome)
    requires Inv(s) && Enabled(s, FetchEnds(t, o))
    ensures Inv(Apply(s, FetchEnds(t, o)))
  {
    var s' := Apply(s, FetchEnds(t, o));
    assert TaskOk(s, t);
    assert Extends(s, s') && MovesOnly(s, s', t);
    GuardMovesOn(s, s', t);
    QuietStepKeeps(s, s', t);
  }

  lemma WriteMemoKeeps(s: State, t: TaskId)
    requires Inv(s) && Enabled(s, WriteMemo(t))
    ensures Inv(Apply(s, WriteMemo(t)))
  {
    assert TaskOk(s, t);
    WrittenKeeps(s, Apply(s, WriteMemo(t)), t);
  }

  lemma WrittenKeeps(s: State, s': State, t: TaskId)
    requires Inv(s) && Extends(s, s') && MovesOnly(s, s', t) && s'.now == s.now && s'.fetches == s.fetches
    requires t in s.tasks && TaskOk(s, t) && s.tasks[t].pc.Fetched?
    requires s'.tasks[t] == s.tasks[t].(pc := Memoised(s.tasks[t].pc.chan, s.tasks[t].pc.outcome),
                                        steps := s.tasks[t].steps + 1)
    requires s'.tables.memo == s.tables.memo[s.tasks[t].key := MemoEntry(s.tasks[t].pc.outcome, s.now + s.ttl)]
    ensures Inv(s')
  {
    GuardMovesOn(s, s', t);
    OthersUndisturbed(s, s', t);
    OthersKept(s, s', t);
    WrittenMemosKept(s, s', t);
    SlotsKept(s, s', t);
  }

  /** The entry a fetcher writes is the outcome of its own fetch. */
  lemma WrittenMemosKept(s: State, s': State, t: TaskId)
    requires Inv(s) && Extends(s, s') && t in s.tasks && s.tasks[t].pc.Fetched? && s'.now == s.now
    requires s'.tables.memo == s.tables.memo[s.tasks[t].key := MemoEntry(s.tasks[t].pc.outcome, s.now + s.ttl)]
    ensures forall k :: k in s'.tables.memo ==> MemoOk(s', k)
  {
    assert TaskOk(s, t);
    assert CameFrom(s', s.tasks[t].key, s.tasks[t].pc.chan, s.tasks[t].pc.outcome);
    forall j | j in s'.tables.memo ensures MemoOk(s', j) {
      if j != s.tasks[t].key { assert MemoOk(s, j); MemoKept(s, s', j); }
    }
  }

  /** Freeing a slot by key frees the dropping guard's own slot and no other guard's. */
  lemma DropFreesOwnSlot(s: State, t: TaskId, end: Option<Outcome>)
    requires Inv(s) && t in s.tasks && HoldsGuard(s.tasks[t].pc)
    requires end.Some? ==> CameFrom(s, s.tasks[t].key, s.tasks[t].pc.chan, end.value)
    ensures var c := s.tasks[t].pc.chan;
            var tables := DropGuard(s.tables, s.tasks[t].key, end);
            && c < |s.tables.channels| && s.tables.channels[c].Open?
            && tables.inflight == s.tables.inflight - {s.tasks[t].key}
            && tables.channels == s.tables.channels[c := if end.Some? then Published(end.value) else Closed]
            && tables.memo == s.tables.memo
    ensures forall u :: u in s.tasks && u != t && HoldsGuard(s.tasks[u].pc) ==>
              s.tasks[u].key in s.tables.inflight && s.tasks[u].key != s.tasks[t].key
  {
    assert TaskOk(s, t);
    assert SlotOwned(s, s.tasks[t].key);
    forall u | u in s.tasks && u != t && HoldsGuard(s.tasks[u].pc)
      ensures s.tasks[u].key in s.tables.inflight && s.tasks[u].key != s.tasks[t].key
    {
      assert TaskOk(s, u);
      if s.tasks[u].key == s.tasks[t].key { OneGuardPerKey(s, t, u); }
    }
  }

  /** The step frees `t`'s slot and ends its channel, and does nothing else to the tables. */
  ghost predicate Drops(s: State, s': State, t: TaskId, end: Option<Outcome>)
    requires t in s.tasks && HoldsGuard(s.tasks[t].pc) && s.tasks[t].pc.chan < |s.tables.channels|
  {
    && t in s'.tasks && !HoldsGuard(s'.tasks[t].pc) && s'.tasks == s.tasks[t := s'.tasks[t]]
    && s'.births == s.births && s'.fetches == s.fetches
    && s'.tables.inflight == s.tables.inflight - {s.tasks[t].key}
    && s'.tables.channels ==
       s.tables.channels[s.tasks[t].pc.chan := if end.Some? then Published(end.value) else Closed]
  }

  lemma DropKeepsSlots(s: State, s': State, t: TaskId, end: Option<Outcome>)
    requires Inv(s) && Extends(s, s') && t in s.tasks && HoldsGuard(s.tasks[t].pc) && TaskOk(s, t)
    requires Drops(s, s', t, end)
    ensures forall k :: k in s'.tables.inflight ==> SlotOwned(s', k)
  {
    forall j | j in s'.tables.inflight ensures SlotOwned(s', j) { assert SlotOwned(s, j); }
  }

  lemma DropKeepsChannels(s: State, s': State, t: TaskId, end: Option<Outcome>)
    requires Inv(s) && Extends(s, s') && t in s.tasks && HoldsGuard(s.tasks[t].pc) && TaskOk(s, t)
    requires end.Some? ==> CameFrom(s, s.tasks[t].key, s.tasks[t].pc.chan, end.value)
    requires Drops(s, s', t, end)
    ensures forall c: nat :: c < |s'.births| ==> ChannelOk(s', c)
  {
    forall c: nat | c < |s'.births| ensures ChannelOk(s', c) { assert ChannelOk(s, c); }
  }

  lemma DropKeepsTables(s: State, s': State, t: TaskId, end: Option<Outcome>)
    requires Inv(s) && t in s.tasks && HoldsGuard(s.tasks[t].pc)
    requires end.Some? ==> CameFrom(s, s.tasks[t].key, s.tasks[t].pc.chan, end.value)
    requires t in s'.tasks && !HoldsGuard(s'.tasks[t].pc)
    requires s' == s.(tables := DropGuard(s.tables, s.tasks[t].key, end),
                      tasks := s.tasks[t := s'.tasks[t]])
    ensures Extends(s, s')
    ensures forall j :: j in s'.tables.inflight ==> SlotOwned(s', j)
    ensures forall j :: j in s'.tables.memo ==> MemoOk(s', j)
    ensures forall c: nat :: c < |s'.births| ==> ChannelOk(s', c)
    ensures forall u :: u in s'.tasks && u != t ==> TaskOk(s', u)
  {
    DropFreesOwnSlot(s, t, end);
    assert TaskOk(s, t);
    assert Extends(s, s') && Drops(s, s', t, end);
    DropKeepsSlots(s, s', t, end);
    DropKeepsChannels(s, s', t, end);
    MemosKept(s, s');
    DropKeepsOthers(s, s', t, end);
  }

  lemma DropKeepsOthers(s: State, s': State, t: TaskId, end: Option<Outcome>)
    requires Inv(s) && Extends(s, s') && t in s.tasks && HoldsGuard(s.tasks[t].pc) && TaskOk(s, t)
    requires Drops(s, s', t, end)
    requires forall u :: u in s.tasks && u != t && HoldsGuard(s.tasks[u].pc) ==>
               s.tasks[u].key in s.tables.inflight && s.tasks[u].key != s.tasks[t].key
    ensures forall u :: u in s'.tasks && u != t ==> TaskOk(s', u)
  {
    forall u | u in s.tasks && u != t ensures Undisturbed(s, s', u) { assert TaskOk(s, u); }
    OthersKept(s, s', t);
  }

  lemma ReleaseKeeps(s: State, t: TaskId)
    requires Inv(s) && Enabled(s, Release(t))
    ensures Inv(Apply(s, Release(t)))
  {
    var s' := Apply(s, Release(t));
    assert TaskOk(s, t);
    DropKeepsTables(s, s', t, Some(s.tasks[t].pc.outcome));
    DroppedFetchesGrow(s, s', s.tasks[t].key);
  }

  lemma CancelKeeps(s: State, t: TaskId)
    requires Inv(s) && Enabled(s, Cancel(t))
    ensures Inv(Apply(s, Cancel(t)))
  {
    var s' := Apply(s, Cancel(t));
    assert TaskOk(s, t);
    if s.tasks[t].pc.Fetching? {
      DropKeepsTables(s, s', t, None);
      DroppedFetchesGrow(s, s', s.tasks[t].key);
    } else {
      DroppedFetchesGrow(s, s', s.tasks[t].key);
      QuietStepKeeps(s, s', t);
    }
  }

  lemma ReceiveKeeps(s: State, t: TaskId)
    requires Inv(s) && Enabled(s, Receive(t))
    ensures Inv(Apply(s, Receive(t)))
  {
    var s' := Apply(s, Receive(t));
    assert TaskOk(s, t) && ChannelOk(s, s.tasks[t].pc.chan);
    if s.tables.channels[s.tasks[t].pc.chan].Closed? {
      RetryInOrder(s, s', t);
    } else {
      DroppedFetchesGrow(s, s', s.tasks[t].key);
    }
    QuietStepKeeps(s, s', t);
  }

  /** A retry is charged to the channel that closed, which no earlier retry was charged to. */
  lemma RetryInOrder(s: State, s': State, t: TaskId)
    requires Extends(s, s') && MovesOnly(s, s', t) && t in s.tasks && TaskOk(s, t)
    requires s.tasks[t].pc.Waiting? && s.tables.channels[s.tasks[t].pc.chan].Closed?
    requires s'.tasks[t] == Task(s.tasks[t].key, Entering, s.tasks[t].retried + {s.tasks[t].pc.chan},
                                 s.tasks[t].steps + 1)
    ensures TaskOk(s', t)
  {
    DroppedFetchesGrow(s, s', s.tasks[t].key);
    assert |s'.tasks[t].retried| == |s.tasks[t].retried| + 1;
    assert s.tasks[t].pc.chan in DroppedFetches(s', s.tasks[t].key);
  }

  lemma GiveUpKeeps(s: State, t: TaskId)
    requires Inv(s) && Enabled(s, GiveUp(t))
    ensures Inv(Apply(s, GiveUp(t)))
  {
    var s' := Apply(s, GiveUp(t));
    assert TaskOk(s, t);
    DroppedFetchesGrow(s, s', s.tasks[t].key);
    QuietStepKeeps(s, s', t);
  }

  lemma EnvironmentKeeps(s: State, step: Step)
    requires Inv(s) && (step.ForgetKey? || step.ClearAll? || step.Tick?)
    ensures Inv(Apply(s, step))
  {
    var s' := Apply(s, step);
    forall u | u in s'.tasks ensures TaskOk(s', u) { assert TaskOk(s, u); TaskKept(s, s', u); }
    MemosKept(s, s');
    forall j | j in s'.tables.inflight ensures SlotOwned(s', j) { assert SlotOwned(s, j); }
    forall c: nat | c < |s'.births| ensures ChannelOk(s', c) { assert ChannelOk(s, c); }
  }

  lemma StepKeepsInv(s: State, step: Step, s': State)
    requires Inv(s) && Next(s, step, s')
    ensures Inv(s')
  {
    match step
    case Call(t, k) => CallKeeps(s, t, k);
    case LookUp(t) => LookUpKeeps(s, t);
    case Enter(t) => EnterKeeps(s, t);
    case FetchEnds(t, o) => FetchEndsKeeps(s, t, o);
    case WriteMemo(t) => WriteMemoKeeps(s, t);
    case Release(t) => ReleaseKeeps(s, t);
    case Receive(t) => ReceiveKeeps(s, t);
    case GiveUp(t) => GiveUpKeeps(s, t);
    case Cancel(t) => CancelKeeps(s, t);
    case ForgetKey(_) => EnvironmentKeeps(s, step);
    case ClearAll => EnvironmentKeeps(s, step);
    case Tick(_) => EnvironmentKeeps(s, step);
  }

  lemma {:induction false} RunKeepsInv(s: State, steps: seq<Step>)
    requires Inv(s) && CanRun(s, steps)
    ensures Inv(After(s, steps))
    decreases |steps|
  {
    if steps != [] {
      StepKeepsInv(s, steps[0], Apply(s, steps[0]));
      RunKeepsInv(Apply(s, steps[0]), steps[1..]);
    }
  }

  lemma ReachableInv(s: State)
    requires Reachable(s)
    ensures Inv(s)
  {
    var s0, steps :| Init(s0) && CanRun(s0, steps) && After(s0, steps) == s;
    RunKeepsInv(s0, steps);
  }
}
