/**
 Any number of callers of the coalescer, interleaved one lock region at a time.

 A caller is a task with a program counter. Time only moves forward. A fetcher can be
 dropped while its fetch runs and a waiter while it waits, nowhere else, because those
 are the only suspension points; dropping a fetcher runs its guard.
 */
module CoalescerProtocol {
  import opened Common
  import opened ArtworkTypes
  import opened Coalescer

  type TaskId = nat

  /** Where the answer a caller returned came from. */
  datatype Via =
    | FromMemo(readAt: nat, expiresAt: nat)
    | FromOwnFetch(own: nat)
    | FromSubscription(joined: nat)

  datatype Pc =
    | Entering
    | Missed
    | Waiting(chan: nat, since: nat)
    | Fetching(chan: nat)
    | Fetched(chan: nat, outcome: Outcome)
    | Memoised(chan: nat, outcome: Outcome)
    | Answered(outcome: Outcome, via: Via)
    | TimedOut(waited: nat)
    | Dropped

  /** `retried` are the channels this caller saw close; `steps` counts its own steps. */
  datatype Task = Task(key: Key, pc: Pc, retried: set<nat>, steps: nat)

  /** Who opened a channel, and for which key. */
  datatype Birth = Birth(key: Key, owner: TaskId)

  /**
   `births` and `fetches` are history: the opener of every channel, and the outcome of
   every fetch that ran to its end, by the channel it owned.
   */
  datatype State = State(
    ttl: nat,
    deadline: nat,
    now: nat,
    tables: Tables,
    tasks: map<TaskId, Task>,
    births: seq<Birth>,
    fetches: map<nat, Outcome>)

  datatype Step =
    | Call(task: TaskId, key: Key)
    | LookUp(task: TaskId)
    | Enter(task: TaskId)
    | FetchEnds(task: TaskId, outcome: Outcome)
    | WriteMemo(task: TaskId)
    | Release(task: TaskId)
    | Receive(task: TaskId)
    | GiveUp(task: TaskId)
    | Cancel(task: TaskId)
    | ForgetKey(key: Key)
    | ClearAll
    | Tick(elapsed: nat)

  ghost predicate Init(s: State) {
    && s.tables == Tables(map[], map[], [])
    && s.tasks == map[] && s.births == [] && s.fetches == map[]
  }

  /** True while a task's guard is alive: it owns its key's slot. */
  predicate HoldsGuard(pc: Pc) {
    pc.Fetching? || pc.Fetched? || pc.Memoised?
  }


  /** Advance one task of `s`, counting the step as its own. */
  function Move(s: State, t: TaskId, pc: Pc, tables: Tables): State
    requires t in s.tasks
  {
    s.(tables := tables,
       tasks := s.tasks[t := s.tasks[t].(pc := pc, steps := s.tasks[t].steps + 1)])
  }

  ghost predicate Enabled(s: State, step: Step) {
    match step
    case Call(t, k) => t !in s.tasks
    case LookUp(t) => t in s.tasks && s.tasks[t].pc.Entering?
    case Enter(t) => t in s.tasks && s.tasks[t].pc.Missed?
    case FetchEnds(t, _) => t in s.tasks && s.tasks[t].pc.Fetching?
    case WriteMemo(t) => t in s.tasks && s.tasks[t].pc.Fetched?
    case Release(t) => t in s.tasks && s.tasks[t].pc.Memoised? && WellFormed(s.tables)
    case Receive(t) =>
      && t in s.tasks && s.tasks[t].pc.Waiting?
      && s.tasks[t].pc.chan < |s.tables.channels|
      && !s.tables.channels[s.tasks[t].pc.chan].Open?
    case GiveUp(t) =>
      // The wait polls the channel before the clock, so it gives up only on a silent one.
      && t in s.tasks && s.tasks[t].pc.Waiting?
      && s.tasks[t].pc.chan < |s.tables.channels|
      && s.tables.channels[s.tasks[t].pc.chan].Open?
      && s.tasks[t].pc.since + s.deadline <= s.now
    case Cancel(t) =>
      && t in s.tasks && (s.tasks[t].pc.Waiting? || s.tasks[t].pc.Fetching?)
      && WellFormed(s.tables)
    case ForgetKey(_) => true
    case ClearAll => true
    case Tick(_) => true
  }

  ghost function Apply(s: State, step: Step): State
    requires Enabled(s, step)
  {
    match step
    case Call(t, k) => s.(tasks := s.tasks[t := Task(k, Entering, {}, 0)])
    case LookUp(t) => ApplyLookUp(s, t)
    case Enter(t) => ApplyEnter(s, t)
    case FetchEnds(t, o) =>
      var c := s.tasks[t].pc.chan;
      Move(s, t, Fetched(c, o), s.tables).(fetches := s.fetches[c := o])
    case WriteMemo(t) =>
      var pc := s.tasks[t].pc;
      Move(s, t, Memoised(pc.chan, pc.outcome),
           Coalescer.Memoise(s.tables, s.tasks[t].key, pc.outcome, s.now + s.ttl))
    case Release(t) =>
      var pc := s.tasks[t].pc;
      Move(s, t, Answered(pc.outcome, FromOwnFetch(pc.chan)),
           DropGuard(s.tables, s.tasks[t].key, Some(pc.outcome)))
    case Receive(t) => ApplyReceive(s, t)
    case GiveUp(t) => Move(s, t, TimedOut(s.now - s.tasks[t].pc.since), s.tables)
    case Cancel(t) => ApplyCancel(s, t)
    case ForgetKey(k) => s.(tables := Forget(s.tables, k))
    case ClearAll => s.(tables := Clear(s.tables))
    case Tick(d) => s.(now := s.now + d)
  }

  ghost function ApplyLookUp(s: State, t: TaskId): State
    requires Enabled(s, LookUp(t))
  {
    var k := s.tasks[t].key;
    var (tables, hit) := CheckMemo(s.tables, k, s.now);
    match hit
    case Some(o) => Move(s, t, Answered(o, FromMemo(s.now, s.tables.memo[k].expiresAt)), tables)
    case None => Move(s, t, Missed, tables)
  }

  ghost function ApplyEnter(s: State, t: TaskId): State
    requires Enabled(s, Enter(t))
  {
    var k := s.tasks[t].key;
    var (tables, joined) := JoinOrClaim(s.tables, k);
    match joined
    case Some(c) => Move(s, t, Waiting(c, s.now), tables)
    case None => Move(s, t, Fetching(|s.tables.channels|), tables).(births := s.births + [Birth(k, t)])
  }

  ghost function ApplyReceive(s: State, t: TaskId): State
    requires Enabled(s, Receive(t))
  {
    var c := s.tasks[t].pc.chan;
    if s.tables.channels[c].Published? then
      Move(s, t, Answered(s.tables.channels[c].outcome, FromSubscription(c)), s.tables)
    else
      // The fetcher was dropped: start over.
      var s' := Move(s, t, Entering, s.tables);
      s'.(tasks := s'.tasks[t := s'.tasks[t].(retried := s'.tasks[t].retried + {c})])
  }

  ghost function ApplyCancel(s: State, t: TaskId): State
    requires Enabled(s, Cancel(t))
  {
    var dropped := s.tasks[t := s.tasks[t].(pc := Dropped)];
    if s.tasks[t].pc.Waiting? then s.(tasks := dropped)
    else s.(tasks := dropped, tables := DropGuard(s.tables, s.tasks[t].key, None))
  }

  ghost predicate Next(s: State, step: Step, s': State) {
    Enabled(s, step) && s' == Apply(s, step)
  }

  /** The steps can be taken one after the other from `s`. */
  ghost predicate CanRun(s: State, steps: seq<Step>)
    decreases |steps|
  {
    steps == [] || (Enabled(s, steps[0]) && CanRun(Apply(s, steps[0]), steps[1..]))
  }

  ghost function After(s: State, steps: seq<Step>): State
    requires CanRun(s, steps)
    decreases |steps|
  {
    if steps == [] then s else After(Apply(s, steps[0]), steps[1..])
  }

  ghost predicate Reachable(s: State) {
    exists s0, steps :: Init(s0) && CanRun(s0, steps) && After(s0, steps) == s
  }

  // ---------------------------------------------------------------------------
  // The inductive invariant
  // ---------------------------------------------------------------------------

  ghost predicate TablesOk(s: State) {
    && WellFormed(s.tables)
    && |s.births| == |s.tables.channels|
  }

  /** A slot names an open channel of its own key whose opener still holds its guard. */
  ghost predicate SlotOwned(s: State, k: Key)
    requires TablesOk(s) && k in s.tables.inflight
  {
    var c := s.tables.inflight[k];
    var t := s.births[c].owner;
    && s.births[c].key == k
    && s.tables.channels[c].Open?
    && t in s.tasks && s.tasks[t].key == k && HoldsGuard(s.tasks[t].pc) && s.tasks[t].pc.chan == c
  }

  /** A live guard's key has a slot, on the very channel that guard opened. */
  ghost predicate GuardHasSlot(s: State, t: TaskId)
    requires TablesOk(s) && t in s.tasks
  {
    var pc := s.tasks[t].pc;
    HoldsGuard(pc) ==>
      && pc.chan < |s.births| && s.births[pc.chan] == Birth(s.tasks[t].key, t)
      && s.tasks[t].key in s.tables.inflight && s.tables.inflight[s.tasks[t].key] == pc.chan
      && (if pc.Fetching? then pc.chan !in s.fetches
          else pc.chan in s.fetches && s.fetches[pc.chan] == pc.outcome)
  }

  /** An open channel is the one in its key's slot. */
  ghost predicate OpenIsInflight(s: State, c: nat)
    requires TablesOk(s) && c < |s.births|
  {
    s.tables.channels[c].Open? ==>
      s.births[c].key in s.tables.inflight && s.tables.inflight[s.births[c].key] == c
  }

  /** `o` is the outcome of a fetch run for `k` on channel `c`. */
  ghost predicate CameFrom(s: State, k: Key, c: nat, o: Outcome)
    requires TablesOk(s)
  {
    c < |s.births| && s.births[c].key == k && c in s.fetches && s.fetches[c] == o
  }

  ghost predicate RanFor(s: State, k: Key, o: Outcome)
    requires TablesOk(s)
  {
    exists c: nat :: CameFrom(s, k, c, o)
  }

  ghost predicate AnswerOk(s: State, t: TaskId)
    requires TablesOk(s) && t in s.tasks
  {
    match s.tasks[t].pc
    case Answered(o, FromMemo(at, until)) => at < until && RanFor(s, s.tasks[t].key, o)
    case Answered(o, FromOwnFetch(c)) => CameFrom(s, s.tasks[t].key, c, o) && s.births[c].owner == t
    case Answered(o, FromSubscription(c)) => CameFrom(s, s.tasks[t].key, c, o)
    case _ => true
  }

  ghost predicate WaiterOk(s: State, t: TaskId)
    requires TablesOk(s) && t in s.tasks
  {
    var pc := s.tasks[t].pc;
    pc.Waiting? ==>
      && pc.chan < |s.births| && s.births[pc.chan].key == s.tasks[t].key
      && pc.chan !in s.tasks[t].retried
  }

  /** Position within one attempt; an attempt that must be retried takes three steps. */
  function Progress(pc: Pc): nat {
    match pc
    case Entering => 0
    case Missed => 1
    case Waiting(_, _) => 2
    case Fetching(_) => 2
    case Fetched(_, _) => 3
    case Memoised(_, _) => 4
    case _ => 5
  }

  /** Every retry is charged to a different dropped fetch of the same key. */
  ghost predicate RetriesCharged(s: State, t: TaskId)
    requires TablesOk(s) && t in s.tasks
  {
    && s.tasks[t].retried <= DroppedFetches(s, s.tasks[t].key)
    && s.tasks[t].steps <= 3 * |s.tasks[t].retried| + Progress(s.tasks[t].pc)
  }

  ghost function DroppedFetches(s: State, k: Key): set<nat>
    requires TablesOk(s)
  {
    set c: nat | c < |s.births| && s.births[c].key == k && s.tables.channels[c].Closed?
  }

  ghost predicate MemoOk(s: State, k: Key)
    requires TablesOk(s) && k in s.tables.memo
  {
    && RanFor(s, k, s.tables.memo[k].outcome)
    && s.tables.memo[k].expiresAt <= s.now + s.ttl
  }

  ghost predicate ChannelOk(s: State, c: nat)
    requires TablesOk(s) && c < |s.births|
  {
    && OpenIsInflight(s, c)
    && (s.tables.channels[c].Published? ==> CameFrom(s, s.births[c].key, c, s.tables.channels[c].outcome))
  }

  ghost predicate TaskOk(s: State, t: TaskId)
    requires TablesOk(s) && t in s.tasks
  {
    GuardHasSlot(s, t) && WaiterOk(s, t) && AnswerOk(s, t) && RetriesCharged(s, t)
  }

  ghost predicate Inv(s: State) {
    && TablesOk(s)
    && (forall k :: k in s.tables.inflight ==> SlotOwned(s, k))
    && (forall k :: k in s.tables.memo ==> MemoOk(s, k))
    && (forall c: nat :: c < |s.births| ==> ChannelOk(s, c))
    && (forall t :: t in s.tasks ==> TaskOk(s, t))
    && (forall c :: c in s.fetches ==> c < |s.births|)
  }
}
