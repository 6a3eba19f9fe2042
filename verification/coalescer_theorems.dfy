/** What the coalescer guarantees in every interleaving, and the two things it does not. */
module CoalescerTheorems {
  import opened Common
  import opened ArtworkTypes
  import opened Coalescer
  import opened CoalescerProtocol
  import opened CoalescerInvariant

  // ---------------------------------------------------------------------------
  // Single flight
  // ---------------------------------------------------------------------------

  ghost predicate FetchesFor(s: State, t: TaskId, k: Key) {
    t in s.tasks && s.tasks[t].key == k && HoldsGuard(s.tasks[t].pc)
  }

  /** A key's slot is taken exactly while one live guard owns it. */
  lemma SlotIffOneGuard(s: State, k: Key)
    requires Reachable(s)
    ensures k in s.tables.inflight <==> exists t :: FetchesFor(s, t, k)
    ensures forall t, u :: FetchesFor(s, t, k) && FetchesFor(s, u, k) ==> t == u
  {
    ReachableInv(s);
    if k in s.tables.inflight {
      assert SlotOwned(s, k);
      assert FetchesFor(s, s.births[s.tables.inflight[k]].owner, k);
    }
    forall t, u | FetchesFor(s, t, k) && FetchesFor(s, u, k) ensures t == u {
      OneGuardPerKey(s, t, u);
    }
    forall t | FetchesFor(s, t, k) ensures k in s.tables.inflight { assert TaskOk(s, t); }
  }

  ghost predicate Frees(step: Step, f: TaskId) {
    step == Release(f) || step == Cancel(f)
  }

  /** Channels opened for `k` after the first `from` channels. */
  ghost predicate NoNewFetch(s: State, from: nat, k: Key) {
    forall c: nat :: from <= c < |s.births| ==> s.births[c].key != k
  }

  lemma StepKeepsGuard(s: State, f: TaskId, k: Key, step: Step)
    requires Inv(s) && FetchesFor(s, f, k) && Enabled(s, step) && !Frees(step, f)
    ensures FetchesFor(Apply(s, step), f, k) && NoNewFetch(Apply(s, step), |s.births|, k)
  {
    assert TaskOk(s, f);
  }

  /** While one fetch keeps its guard, nobody starts another for the same key. */
  lemma {:induction false} OneDispatchPerGuard(s: State, f: TaskId, k: Key, steps: seq<Step>)
    requires Inv(s) && FetchesFor(s, f, k) && CanRun(s, steps)
    requires forall i :: 0 <= i < |steps| ==> !Frees(steps[i], f)
    ensures FetchesFor(After(s, steps), f, k) && NoNewFetch(After(s, steps), |s.births|, k)
    decreases |steps|
  {
    if steps != [] {
      var s' := Apply(s, steps[0]);
      assert !Frees(steps[0], f);
      StepKeepsInv(s, steps[0], s');
      StepKeepsGuard(s, f, k, steps[0]);
      OneDispatchPerGuard(s', f, k, steps[1..]);
      BirthsKept(s', steps[1..]);
    }
  }

  lemma {:induction false} BirthsKept(s: State, steps: seq<Step>)
    requires CanRun(s, steps)
    ensures |s.births| <= |After(s, steps).births|
    ensures forall c: nat :: c < |s.births| ==> After(s, steps).births[c] == s.births[c]
    decreases |steps|
  {
    if steps != [] {
      BirthsKept(Apply(s, steps[0]), steps[1..]);
    }
  }

  lemma RunFirst(s: State, step: Step, steps: seq<Step>)
    requires Enabled(s, step) && CanRun(Apply(s, step), steps)
    ensures CanRun(s, [step] + steps) && After(s, [step] + steps) == After(Apply(s, step), steps)
  {
    assert ([step] + steps)[1..] == steps;
  }

  /**
   Concurrent callers are not always served by one dispatch: the memo check and the slot
   check are different lock regions, and a whole fetch of another caller fits in between.
   Here both callers have missed before either claims the slot, and both fetch.
   */
  lemma TwoDispatchesForConcurrentCallers(s: State, k: Key, o: Outcome) returns (mid: State, steps: seq<Step>)
    requires Init(s)
    ensures Reachable(mid) && mid.fetches == map[]
    ensures 0 in mid.tasks && mid.tasks[0] == Task(k, Missed, {}, 1)
    ensures 1 in mid.tasks && mid.tasks[1] == Task(k, Missed, {}, 1)
    ensures CanRun(mid, steps) && After(mid, steps).fetches == map[0 := o, 1 := o]
  {
    mid := BothMissed(s, k);
    var s1 := Apply(mid, Enter(0));
    var s2 := Apply(s1, FetchEnds(0, o));
    var s3 := Apply(s2, WriteMemo(0));
    var s4 := Apply(s3, Release(0));
    var s5 := Apply(s4, Enter(1));
    var s6 := Apply(s5, FetchEnds(1, o));
    RunFirst(s5, FetchEnds(1, o), []);
    RunFirst(s4, Enter(1), [FetchEnds(1, o)]);
    RunFirst(s3, Release(0), [Enter(1)] + [FetchEnds(1, o)]);
    RunFirst(s2, WriteMemo(0), [Release(0)] + ([Enter(1)] + [FetchEnds(1, o)]));
    steps := [WriteMemo(0)] + ([Release(0)] + ([Enter(1)] + [FetchEnds(1, o)]));
    RunFirst(s1, FetchEnds(0, o), steps);
    RunFirst(mid, Enter(0), [FetchEnds(0, o)] + steps);
    steps := [Enter(0)] + ([FetchEnds(0, o)] + steps);
  }

  lemma BothMissed(s: State, k: Key) returns (mid: State)
    requires Init(s)
    ensures Reachable(mid)
    ensures mid.tables == s.tables && mid.births == [] && mid.fetches == map[]
    ensures mid.tasks == map[0 := Task(k, Missed, {}, 1), 1 := Task(k, Missed, {}, 1)]
  {
    var s1 := Apply(s, Call(0, k));
    var s2 := Apply(s1, Call(1, k));
    var s3 := Apply(s2, LookUp(0));
    mid := Apply(s3, LookUp(1));
    RunFirst(s3, LookUp(1), []);
    RunFirst(s2, LookUp(0), [LookUp(1)]);
    RunFirst(s1, Call(1, k), [LookUp(0)] + [LookUp(1)]);
    RunFirst(s, Call(0, k), [Call(1, k)] + ([LookUp(0)] + [LookUp(1)]));
    assert mid.tables.memo == s.tables.memo;
  }

  // ---------------------------------------------------------------------------
  // Waiters
  // ---------------------------------------------------------------------------

  /**
   No waiter is lost. Its channel either is the one in its key's slot, with a live fetch
   behind it, or has ended, and then the waiter can take its next step at once. When its
   deadline has passed it can always take one.
   */
  lemma WaiterIsNeverLost(s: State, t: TaskId)
    requires Reachable(s) && t in s.tasks && s.tasks[t].pc.Waiting?
    ensures var c, k := s.tasks[t].pc.chan, s.tasks[t].key;
            || Enabled(s, Receive(t))
            || (c < |s.births| && k in s.tables.inflight && s.tables.inflight[k] == c
                && FetchesFor(s, s.births[c].owner, k))
    ensures s.tasks[t].pc.since + s.deadline <= s.now ==> Enabled(s, Receive(t)) || Enabled(s, GiveUp(t))
  {
    ReachableInv(s);
    assert TaskOk(s, t);
    assert ChannelOk(s, s.tasks[t].pc.chan);
    if s.tables.channels[s.tasks[t].pc.chan].Open? {
      assert SlotOwned(s, s.tasks[t].key);
    }
  }

  /** Retries are bounded by the dropped fetches of the caller's key, and so is its work. */
  lemma RetriesAreBounded(s: State, t: TaskId)
    requires Reachable(s) && t in s.tasks
    ensures TablesOk(s)
    ensures |s.tasks[t].retried| <= |DroppedFetches(s, s.tasks[t].key)|
    ensures s.tasks[t].steps <= 3 * |DroppedFetches(s, s.tasks[t].key)| + 5
  {
    ReachableInv(s);
    assert TaskOk(s, t);
    SubsetCardinality(s.tasks[t].retried, DroppedFetches(s, s.tasks[t].key));
  }

  /** Waking up on a dropped fetch charges a channel that was never charged before. */
  lemma RetryChargesNewFetch(s: State, t: TaskId)
    requires Reachable(s) && Enabled(s, Receive(t))
    requires s.tables.channels[s.tasks[t].pc.chan].Closed?
    ensures var s' := Apply(s, Receive(t));
            && s'.tasks[t].pc.Entering?
            && s'.tasks[t].retried == s.tasks[t].retried + {s.tasks[t].pc.chan}
            && s.tasks[t].pc.chan !in s.tasks[t].retried
  {
    ReachableInv(s);
    assert TaskOk(s, t);
  }

  // ---------------------------------------------------------------------------
  // Where answers come from
  // ---------------------------------------------------------------------------

  /**
   Every answer is the outcome of a fetch run for the caller's own key: its own fetch, the
   one it subscribed to, or one whose memo entry was still fresh when read.
   */
  lemma AnswersComeFromFetches(s: State, t: TaskId)
    requires Reachable(s) && t in s.tasks && s.tasks[t].pc.Answered?
    ensures TablesOk(s)
    ensures match s.tasks[t].pc.via
            case FromMemo(at, until) => at < until && RanFor(s, s.tasks[t].key, s.tasks[t].pc.outcome)
            case FromOwnFetch(c) =>
              CameFrom(s, s.tasks[t].key, c, s.tasks[t].pc.outcome) && s.births[c].owner == t
            case FromSubscription(c) => CameFrom(s, s.tasks[t].key, c, s.tasks[t].pc.outcome)
  {
    ReachableInv(s);
    assert TaskOk(s, t);
  }

  ghost predicate Forgets(step: Step, k: Key) {
    step == ForgetKey(k) || step == ClearAll
  }

  ghost predicate FreshUntil(s: State, k: Key, until: nat) {
    k in s.tables.memo && until <= s.tables.memo[k].expiresAt
  }

  /** A caller of `k` that is still entering, or was answered by the memo. */
  ghost predicate ServedFromMemo(s: State, t: TaskId, k: Key) {
    t in s.tasks && s.tasks[t].key == k ==>
      s.tasks[t].pc.Entering? || (s.tasks[t].pc.Answered? && s.tasks[t].pc.via.FromMemo?)
  }

  lemma StepKeepsFreshness(s: State, step: Step, k: Key, until: nat)
    requires Inv(s) && Enabled(s, step) && !Forgets(step, k)
    requires FreshUntil(s, k, until) && s.now < until
    ensures FreshUntil(Apply(s, step), k, until)
  {
    assert MemoOk(s, k);
  }

  lemma StepServesFromMemo(s: State, step: Step, k: Key, until: nat, t: TaskId)
    requires Enabled(s, step) && FreshUntil(s, k, until) && s.now < until
    requires ServedFromMemo(s, t, k)
    ensures ServedFromMemo(Apply(s, step), t, k)
  {
  }

  lemma {:induction false} FreshMemoServesEveryCaller(s: State, steps: seq<Step>, k: Key, until: nat, t: TaskId)
    requires Inv(s) && CanRun(s, steps) && FreshUntil(s, k, until)
    requires forall i :: 0 <= i < |steps| ==> !Forgets(steps[i], k)
    requires After(s, steps).now < until
    requires ServedFromMemo(s, t, k)
    ensures ServedFromMemo(After(s, steps), t, k)
    decreases |steps|
  {
    if steps != [] {
      var s' := Apply(s, steps[0]);
      assert !Forgets(steps[0], k);
      TimeMovesForward(s', steps[1..]);
      StepKeepsInv(s, steps[0], s');
      StepKeepsFreshness(s, steps[0], k, until);
      StepServesFromMemo(s, steps[0], k, until, t);
      FreshMemoServesEveryCaller(s', steps[1..], k, until, t);
    }
  }

  lemma {:induction false} TimeMovesForward(s: State, steps: seq<Step>)
    requires CanRun(s, steps)
    ensures s.now <= After(s, steps).now
    decreases |steps|
  {
    if steps != [] {
      TimeMovesForward(Apply(s, steps[0]), steps[1..]);
    }
  }

  /**
   The memo is written while the slot is still held. From that write on, for as long as
   the entry lives and nobody forgets it, a caller that had not yet looked the key up never
   starts a fetch: whenever the run is stopped it is still entering or was served from the memo.
   */
  lemma SettledKeyIsNotFetchedAgain(s: State, u: TaskId, steps: seq<Step>, t: TaskId)
    requires Reachable(s) && Enabled(s, WriteMemo(u))
    requires CanRun(Apply(s, WriteMemo(u)), steps)
    requires forall i :: 0 <= i < |steps| ==> !Forgets(steps[i], s.tasks[u].key)
    requires After(Apply(s, WriteMemo(u)), steps).now < s.now + s.ttl
    requires t in s.tasks ==> s.tasks[t].pc.Entering?
    ensures s.tasks[u].key in Apply(s, WriteMemo(u)).tables.inflight
    ensures ServedFromMemo(After(Apply(s, WriteMemo(u)), steps), t, s.tasks[u].key)
  {
    ReachableInv(s);
    assert TaskOk(s, u);
    StepKeepsInv(s, WriteMemo(u), Apply(s, WriteMemo(u)));
    FreshMemoServesEveryCaller(Apply(s, WriteMemo(u)), steps, s.tasks[u].key, s.now + s.ttl, t);
  }

  /** Some caller of `k` has missed the memo and not yet looked at the slot. */
  ghost predicate MissedBefore(s: State, k: Key) {
    exists t :: t in s.tasks && s.tasks[t].key == k && s.tasks[t].pc.Missed?
  }

  /** A run from `s` that forgets nothing of `k`, ends before `until`, and opens another channel for `k`. */
  ghost predicate FetchesAgain(s: State, k: Key, until: nat, steps: seq<Step>) {
    && CanRun(s, steps) && (forall i :: 0 <= i < |steps| ==> !Forgets(steps[i], k))
    && After(s, steps).now < until && !NoNewFetch(After(s, steps), |s.births|, k)
  }

  ghost predicate CanFetchAgain(s: State, k: Key, until: nat) {
    exists steps :: FetchesAgain(s, k, until, steps)
  }

  /** Only a lookup makes a caller miss, and not while the entry is fresh. */
  lemma WasMissed(s: State, step: Step, k: Key, until: nat, t: TaskId)
    requires Enabled(s, step) && FreshUntil(s, k, until) && s.now < until
    requires t in Apply(s, step).tasks && Apply(s, step).tasks[t].key == k && Apply(s, step).tasks[t].pc.Missed?
    ensures t in s.tasks && s.tasks[t].key == k && s.tasks[t].pc.Missed?
  {
  }

  /** Only a caller that has missed opens a channel. */
  lemma OpenerHadMissed(s: State, step: Step, k: Key)
    requires Enabled(s, step) && !NoNewFetch(Apply(s, step), |s.births|, k)
    ensures MissedBefore(s, k)
  {
    assert step.Enter? && s.tasks[step.task].key == k;
  }

  lemma StepMissesNothing(s: State, step: Step, k: Key, until: nat)
    requires Enabled(s, step) && FreshUntil(s, k, until) && s.now < until && !MissedBefore(s, k)
    ensures !MissedBefore(Apply(s, step), k) && NoNewFetch(Apply(s, step), |s.births|, k)
  {
    if MissedBefore(Apply(s, step), k) {
      var t :| t in Apply(s, step).tasks && Apply(s, step).tasks[t].key == k && Apply(s, step).tasks[t].pc.Missed?;
      WasMissed(s, step, k, until, t);
    }
    if !NoNewFetch(Apply(s, step), |s.births|, k) { OpenerHadMissed(s, step, k); }
  }

  lemma {:induction false} NobodyFetchesAgain(s: State, k: Key, until: nat, steps: seq<Step>)
    requires Inv(s) && FreshUntil(s, k, until) && !MissedBefore(s, k) && CanRun(s, steps)
    requires forall i :: 0 <= i < |steps| ==> !Forgets(steps[i], k)
    requires After(s, steps).now < until
    ensures NoNewFetch(After(s, steps), |s.births|, k)
    decreases |steps|
  {
    if steps != [] {
      var s' := Apply(s, steps[0]);
      assert !Forgets(steps[0], k);
      TimeMovesForward(s, steps);
      TimeMovesForward(s', steps[1..]);
      StepKeepsInv(s, steps[0], s');
      StepKeepsFreshness(s, steps[0], k, until);
      StepMissesNothing(s, steps[0], k, until);
      NobodyFetchesAgain(s', k, until, steps[1..]);
      BirthsKept(s', steps[1..]);
    }
  }

  lemma RunTwo(s: State, first: Step, second: Step)
    requires Enabled(s, first) && Enabled(Apply(s, first), second)
    ensures CanRun(s, [first, second]) && After(s, [first, second]) == Apply(Apply(s, first), second)
  {
    RunFirst(Apply(s, first), second, []);
    RunFirst(s, first, [second] + []);
    assert [first] + ([second] + []) == [first, second];
  }

  lemma ReleasedSlot(s: State, u: TaskId, t: TaskId)
    requires Inv(s) && Enabled(s, Release(u)) && t in s.tasks && s.tasks[t].pc.Missed?
    requires s.tasks[t].key == s.tasks[u].key
    ensures var s' := Apply(s, Release(u));
            && Enabled(s', Enter(t)) && s'.now == s.now && s'.births == s.births
            && Apply(s', Enter(t)).now == s.now
            && Apply(s', Enter(t)).births == s.births + [Birth(s.tasks[u].key, t)]
  {
    assert TaskOk(s, u);
  }

  lemma ReleasedSlotIsTaken(s: State, u: TaskId, t: TaskId, until: nat)
    requires Inv(s) && Enabled(s, Release(u)) && t in s.tasks && s.tasks[t].pc.Missed?
    requires s.tasks[t].key == s.tasks[u].key && s.now < until
    ensures FetchesAgain(s, s.tasks[u].key, until, [Release(u), Enter(t)])
  {
    ReleasedSlot(s, u, t);
    RunTwo(s, Release(u), Enter(t));
    assert After(s, [Release(u), Enter(t)]).births[|s.births|].key == s.tasks[u].key;
  }

  /** A caller that missed fetches again as soon as the settled fetch frees the slot. */
  lemma MissedCallerFetches(s: State, u: TaskId, t: TaskId)
    requires Inv(s) && Enabled(s, WriteMemo(u)) && s.ttl > 0
    requires t in s.tasks && s.tasks[t].key == s.tasks[u].key && s.tasks[t].pc.Missed?
    ensures CanFetchAgain(Apply(s, WriteMemo(u)), s.tasks[u].key, s.now + s.ttl)
  {
    StepKeepsInv(s, WriteMemo(u), Apply(s, WriteMemo(u)));
    ReleasedSlotIsTaken(Apply(s, WriteMemo(u)), u, t, s.now + s.ttl);
  }

  /**
   When a fetch has just been memoised, a second dispatch can follow within the memo's life and without
   a forget exactly when some caller of the key had missed the memo and not yet looked at the slot.
   */
  lemma SecondDispatchIff(s: State, u: TaskId)
    requires Reachable(s) && Enabled(s, WriteMemo(u)) && s.ttl > 0
    ensures CanFetchAgain(Apply(s, WriteMemo(u)), s.tasks[u].key, s.now + s.ttl) <==> MissedBefore(s, s.tasks[u].key)
  {
    ReachableInv(s);
    var k, s1 := s.tasks[u].key, Apply(s, WriteMemo(u));
    if MissedBefore(s, k) {
      var t :| t in s.tasks && s.tasks[t].key == k && s.tasks[t].pc.Missed?;
      MissedCallerFetches(s, u, t);
    } else {
      StepKeepsInv(s, WriteMemo(u), s1);
      forall steps | CanRun(s1, steps) && (forall i :: 0 <= i < |steps| ==> !Forgets(steps[i], k))
                     && After(s1, steps).now < s.now + s.ttl
        ensures !FetchesAgain(s1, k, s.now + s.ttl, steps)
      {
        NobodyFetchesAgain(s1, k, s.now + s.ttl, steps);
      }
    }
  }

  // ---------------------------------------------------------------------------
  // Forgetting does not reach a running fetch
  // ---------------------------------------------------------------------------

  /** Some fetch for `k` is running and has not written the memo yet. */
  ghost predicate WillPublish(s: State, k: Key) {
    exists t :: t in s.tasks && s.tasks[t].key == k && (s.tasks[t].pc.Fetching? || s.tasks[t].pc.Fetched?)
  }

  lemma {:induction false} NothingPublishes(s: State, steps: seq<Step>, k: Key)
    requires CanRun(s, steps) && !WillPublish(s, k) && k !in s.tables.memo
    requires NoNewFetch(After(s, steps), |s.births|, k)
    ensures k !in After(s, steps).tables.memo
    decreases |steps|
  {
    if steps != [] {
      var s' := Apply(s, steps[0]);
      BirthsKept(s', steps[1..]);
      assert |s.births| < |s'.births| ==> After(s, steps).births[|s.births|].key != k;
      assert !WillPublish(s', k);
      NothingPublishes(s', steps[1..], k);
    }
  }

  lemma FinishFetch(s: State, t: TaskId, o: Outcome) returns (steps: seq<Step>)
    requires t in s.tasks && (s.tasks[t].pc.Fetching? || s.tasks[t].pc.Fetched?)
    ensures CanRun(s, steps) && s.tasks[t].key in After(s, steps).tables.memo
    ensures After(s, steps).births == s.births
  {
    var s1 := if s.tasks[t].pc.Fetching? then Apply(s, FetchEnds(t, o)) else s;
    RunFirst(s1, WriteMemo(t), []);
    steps := [WriteMemo(t)] + [];
    if s.tasks[t].pc.Fetching? {
      RunFirst(s, FetchEnds(t, o), steps);
      steps := [FetchEnds(t, o)] + steps;
    }
  }

  /** An entry for `k` can appear without a new fetch for it being started. */
  ghost predicate CanComeBack(s: State, k: Key) {
    exists steps :: CanRun(s, steps) && NoNewFetch(After(s, steps), |s.births|, k) && k in After(s, steps).tables.memo
  }

  lemma MissingEntryReturnsIff(s: State, k: Key, o: Outcome)
    requires k !in s.tables.memo
    ensures WillPublish(s, k) <==> CanComeBack(s, k)
  {
    if WillPublish(s, k) {
      var t :| t in s.tasks && s.tasks[t].key == k && (s.tasks[t].pc.Fetching? || s.tasks[t].pc.Fetched?);
      var steps := FinishFetch(s, t, o);
      assert NoNewFetch(After(s, steps), |s.births|, k);
    } else {
      forall steps | CanRun(s, steps) && NoNewFetch(After(s, steps), |s.births|, k)
        ensures k !in After(s, steps).tables.memo
      {
        NothingPublishes(s, steps, k);
      }
    }
  }

  /**
   After a key is forgotten, its entry can come back without a new fetch being started
   exactly when a fetch for it was already running and had not yet written the memo.
   */
  lemma ForgottenEntryReturnsIff(s: State, k: Key, o: Outcome)
    requires Reachable(s)
    ensures WillPublish(s, k) <==> CanComeBack(Apply(s, ForgetKey(k)), k)
  {
    var s' := Apply(s, ForgetKey(k));
    assert WillPublish(s', k) <==> WillPublish(s, k);
    MissingEntryReturnsIff(s', k, o);
  }

  /** Clearing the whole memo reaches running fetches no more than forgetting one key does. */
  lemma ClearedEntryReturnsIff(s: State, k: Key, o: Outcome)
    requires Reachable(s)
    ensures WillPublish(s, k) <==> CanComeBack(Apply(s, ClearAll), k)
  {
    var s' := Apply(s, ClearAll);
    assert WillPublish(s', k) <==> WillPublish(s, k);
    MissingEntryReturnsIff(s', k, o);
  }
}
