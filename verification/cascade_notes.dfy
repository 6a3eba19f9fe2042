/** Where negative answers come from in the interleaved resolves, and how a note hides a stored picture. */
module CascadeNotes {
  import opened Common
  import opened ArtworkTypes
  import opened CascadeTiers
  import P = CoalescerProtocol
  import CI = CoalescerInvariant
  import C = Coalescer
  import I = ResolveIndex
  import N = NegativeMemo
  import opened Cascade
  import opened CascadeRuns

  // ---------------------------------------------------------------------------
  // Every note has a cause
  // ---------------------------------------------------------------------------

  /** A run of the key failed for that reason, or a wait on the key lasted past its deadline. */
  ghost predicate CauseOk(s: State, k: Key, cause: Cause) {
    match cause
    case RunVerdict(_, _, _) => true
    case FailedRun(reason) => (k, reason) in s.failed
    case GaveUp(waited, _) => s.coalescer.deadline <= waited
  }

  /** The note says what its cause calls for, for as long as that is kept. */
  ghost predicate Justified(s: State, n: Note) {
    && n.at <= s.coalescer.now && CauseOk(s, n.key, n.cause)
    && NoteOf(n.key, s.noteTtl, n.cause).Some?
    && var (note, life) := NoteOf(n.key, s.noteTtl, n.cause).value;
       n.entry == N.Entry(note.status, note.detail, note.provider, n.at + life)
  }

  ghost predicate Recorded(s: State, k: Key, e: N.Entry, until: nat) {
    exists n :: n in s.notes && n.key == k && n.entry == e && n.at <= until
  }

  /** Every failed fetch is in the history under its key. */
  ghost predicate FailuresRecorded(co: P.State, failed: set<(Key, string)>) {
    forall c :: c in co.fetches && c < |co.births| && co.fetches[c].Failed? ==>
      (co.births[c].key, co.fetches[c].reason) in failed
  }

  /** Every caller that gave up waited for its deadline. */
  ghost predicate WaitsOk(co: P.State) {
    forall c :: c in co.tasks && co.tasks[c].pc.TimedOut? ==> co.deadline <= co.tasks[c].pc.waited
  }

  /** A refusal tells the failure of a run of the key, or a wait that gave up. */
  ghost predicate RefusalOk(s: State, k: Key, o: CascadeOutcome) {
    o.CoalescerDeadline? || exists reason :: (k, reason) in s.failed && o == ClassifyFetcherError(reason)
  }

  ghost predicate NoteTaskOk(s: State, t: nat)
    requires t in s.tasks
  {
    var k := s.tasks[t].key;
    match s.tasks[t].pc
    case Noting(cause, outcome) => CauseOk(s, k, cause) && RefusalOk(s, k, outcome)
    case Finished(FromNote(e, at)) => at < e.expiresAt && at <= s.coalescer.now && Recorded(s, k, e, at)
    case Finished(Refused(outcome)) => RefusalOk(s, k, outcome)
    case _ => true
  }

  ghost predicate MemoOk(s: State) {
    && s.capacity >= 1 && N.Inv(s.negative, s.capacity)
    && forall k :: k in s.negative.entries ==> Recorded(s, k, s.negative.entries[k], s.coalescer.now)
  }

  ghost predicate NotesInv(s: State) {
    && MemoOk(s) && FailuresRecorded(s.coalescer, s.failed) && WaitsOk(s.coalescer)
    && (forall n :: n in s.notes ==> Justified(s, n))
    && (forall t :: t in s.tasks ==> NoteTaskOk(s, t))
  }

  /** Time moves on, history only grows, and the settings stay. */
  ghost predicate LaterThan(s: State, s': State) {
    && s.coalescer.now <= s'.coalescer.now && s.coalescer.deadline == s'.coalescer.deadline
    && s.noteTtl == s'.noteTtl && s.capacity == s'.capacity && s.notes <= s'.notes && s.failed <= s'.failed
  }

  lemma RecordedStays(s: State, s': State, k: Key, e: N.Entry, until: nat)
    requires LaterThan(s, s') && Recorded(s, k, e, until)
    ensures Recorded(s', k, e, until) && forall later: nat :: until <= later ==> Recorded(s', k, e, later)
  {
    var n :| n in s.notes && n.key == k && n.entry == e && n.at <= until;
    assert n in s'.notes;
  }

  lemma RefusalStays(s: State, s': State, k: Key, o: CascadeOutcome)
    requires LaterThan(s, s') && RefusalOk(s, k, o)
    ensures RefusalOk(s', k, o)
  {
    if !o.CoalescerDeadline? {
      var reason :| (k, reason) in s.failed && o == ClassifyFetcherError(reason);
      assert (k, reason) in s'.failed;
    }
  }

  lemma TaskStaysOk(s: State, s': State, t: nat)
    requires LaterThan(s, s') && t in s.tasks && t in s'.tasks && s'.tasks[t] == s.tasks[t] && NoteTaskOk(s, t)
    ensures NoteTaskOk(s', t)
  {
    var k := s.tasks[t].key;
    match s.tasks[t].pc
    case Noting(_, outcome) => RefusalStays(s, s', k, outcome);
    case Finished(FromNote(e, at)) => RecordedStays(s, s', k, e, at);
    case Finished(Refused(outcome)) => RefusalStays(s, s', k, outcome);
    case _ =>
  }

  /** A memo that has only lost entries. */
  lemma MemoShrinks(s: State, s': State)
    requires LaterThan(s, s') && MemoOk(s) && N.Inv(s'.negative, s'.capacity)
    requires forall k :: k in s'.negative.entries ==>
               k in s.negative.entries && s'.negative.entries[k] == s.negative.entries[k]
    ensures MemoOk(s')
  {
    forall k | k in s'.negative.entries ensures Recorded(s', k, s'.negative.entries[k], s'.coalescer.now) {
      RecordedStays(s, s', k, s.negative.entries[k], s.coalescer.now);
    }
  }

  /** The memo does not move. */
  lemma SameMemo(s: State, s': State)
    requires MemoOk(s) && s'.negative == s.negative && s'.notes == s.notes && LaterThan(s, s')
    ensures MemoOk(s')
  {
    MemoShrinks(s, s');
  }

  /** A step that leaves the coalescer and the history alone, and moves at most one task. */
  lemma TaskMoves(s: State, s': State, t: nat)
    requires NotesInv(s) && s'.coalescer == s.coalescer && s'.notes == s.notes && s'.failed == s.failed
    requires LaterThan(s, s') && MemoOk(s')
    requires t in s'.tasks ==> NoteTaskOk(s', t)
    requires forall u :: u in s'.tasks && u != t ==> u in s.tasks && s'.tasks[u] == s.tasks[u]
    ensures NotesInv(s')
  {
    forall n | n in s'.notes ensures Justified(s', n) { assert Justified(s, n); }
    forall u | u in s'.tasks ensures NoteTaskOk(s', u) { if u != t { TaskStaysOk(s, s', u); } }
  }

  /** One task moves at most; memo, coalescer and history stay. */
  ghost predicate OneMove(s: State, s': State, t: nat) {
    && s'.coalescer == s.coalescer && s'.negative == s.negative && s'.notes == s.notes && s'.failed == s.failed
    && s'.noteTtl == s.noteTtl && s'.capacity == s.capacity
    && forall u :: u in s'.tasks && u != t ==> u in s.tasks && s'.tasks[u] == s.tasks[u]
  }

  lemma OneMoveKeeps(s: State, s': State, t: nat)
    requires NotesInv(s) && OneMove(s, s', t) && (t in s'.tasks ==> NoteTaskOk(s', t))
    ensures NotesInv(s')
  {
    SameMemo(s, s');
    TaskMoves(s, s', t);
  }

  // ---------------------------------------------------------------------------
  // Every step keeps it
  // ---------------------------------------------------------------------------

  lemma ReadNoteTells(s: State, t: nat)
    requires MemoOk(s) && Enabled(s, ReadNote(t))
    ensures NoteTaskOk(Apply(s, ReadNote(t)), t)
  {
    var k := s.tasks[t].key;
    if k in s.negative.entries {
      RecordedStays(s, Apply(s, ReadNote(t)), k, s.negative.entries[k], s.coalescer.now);
    }
  }

  lemma ReadNoteKeepsMemo(s: State, t: nat)
    requires MemoOk(s) && Enabled(s, ReadNote(t))
    ensures MemoOk(Apply(s, ReadNote(t)))
  {
    N.GetKeepsInv(s.negative, s.capacity, s.tasks[t].key, s.coalescer.now);
    MemoShrinks(s, Apply(s, ReadNote(t)));
  }

  lemma ReadNoteMoves(s: State, t: nat)
    requires NotesInv(s) && Enabled(s, ReadNote(t))
    ensures NotesInv(Apply(s, ReadNote(t)))
  {
    ReadNoteTells(s, t);
    ReadNoteKeepsMemo(s, t);
    TaskMoves(s, Apply(s, ReadNote(t)), t);
  }

  /** The memo after a note is written. */
  lemma WriteKeepsMemo(s: State, k: Key, cause: Cause)
    requires MemoOk(s) && NoteOf(k, s.noteTtl, cause).Some?
    ensures MemoOk(Write(s, k, cause))
  {
    var s' := Write(s, k, cause);
    var (note, life) := NoteOf(k, s.noteTtl, cause).value;
    var entry := N.Entry(note.status, note.detail, note.provider, s.coalescer.now + life);
    N.PutKeepsInv(s.negative, s.capacity, k, entry, s.coalescer.now);
    assert Note(k, cause, entry, s.coalescer.now) in s'.notes;
    forall j | j in s'.negative.entries ensures Recorded(s', j, s'.negative.entries[j], s'.coalescer.now) {
      if j != k { RecordedStays(s, s', j, s.negative.entries[j], s.coalescer.now); }
    }
  }

  lemma WriteIsJustified(s: State, k: Key, cause: Cause, n: Note)
    requires NoteOf(k, s.noteTtl, cause).Some? && CauseOk(s, k, cause) && n in Write(s, k, cause).notes
    requires n in s.notes ==> Justified(s, n)
    ensures Justified(Write(s, k, cause), n)
  {
  }

  lemma WriteKeeps(s: State, k: Key, cause: Cause)
    requires NotesInv(s) && NoteOf(k, s.noteTtl, cause).Some? && CauseOk(s, k, cause)
    ensures NotesInv(Write(s, k, cause))
  {
    var s' := Write(s, k, cause);
    WriteKeepsMemo(s, k, cause);
    forall n | n in s'.notes ensures Justified(s', n) { WriteIsJustified(s, k, cause, n); }
    forall u | u in s'.tasks ensures NoteTaskOk(s', u) { TaskStaysOk(s, s', u); }
  }

  lemma WriteNoteMoves(s: State, t: nat)
    requires NotesInv(s) && Enabled(s, WriteNote(t))
    ensures NotesInv(Apply(s, WriteNote(t)))
  {
    var mid := Move(s, t, Finished(Refused(s.tasks[t].pc.outcome)));
    assert NoteTaskOk(s, t);
    RefusalStays(s, mid, s.tasks[t].key, s.tasks[t].pc.outcome);
    MemoShrinks(s, mid);
    TaskMoves(s, mid, t);
    WriteKeeps(mid, s.tasks[t].key, s.tasks[t].pc.cause);
  }

  lemma CoalescerMoves(s: State, step: P.Step)
    requires NotesInv(s) && P.Inv(s.coalescer) && P.Enabled(s.coalescer, step)
    ensures NotesInv(ApplyCoalescerStep(s, step))
  {
    var s' := ApplyCoalescerStep(s, step);
    ClockRuns(s.coalescer, step);
    assert LaterThan(s, s');
    MemoShrinks(s, s');
    FailuresStayRecorded(s.coalescer, step, s.failed, s'.failed);
    WaitsStayOk(s.coalescer, step);
    forall n | n in s'.notes ensures Justified(s', n) { assert Justified(s, n); }
    forall u | u in s'.tasks ensures NoteTaskOk(s', u) { TaskStaysOk(s, s', u); }
  }

  lemma ClockRuns(co: P.State, step: P.Step)
    requires P.Enabled(co, step)
    ensures co.now <= P.Apply(co, step).now && P.Apply(co, step).deadline == co.deadline
  {
  }

  lemma FailuresStayRecorded(co: P.State, step: P.Step, failed: set<(Key, string)>, failed': set<(Key, string)>)
    requires P.Inv(co) && P.Enabled(co, step) && FailuresRecorded(co, failed) && failed <= failed'
    requires step.FetchEnds? && step.outcome.Failed? ==> (co.tasks[step.task].key, step.outcome.reason) in failed'
    ensures FailuresRecorded(P.Apply(co, step), failed')
  {
    var co' := P.Apply(co, step);
    forall c | c in co'.fetches && c < |co'.births| && co'.fetches[c].Failed?
      ensures (co'.births[c].key, co'.fetches[c].reason) in failed'
    {
      if step.FetchEnds? && c == co.tasks[step.task].pc.chan { assert P.TaskOk(co, step.task); }
    }
  }

  lemma TimedOutBefore(co: P.State, step: P.Step, c: nat)
    requires P.Enabled(co, step) && c in P.Apply(co, step).tasks && P.Apply(co, step).tasks[c].pc.TimedOut?
    ensures step == P.GiveUp(c) || (c in co.tasks && co.tasks[c].pc == P.Apply(co, step).tasks[c].pc)
  {
  }

  lemma WaitsStayOk(co: P.State, step: P.Step)
    requires P.Enabled(co, step) && WaitsOk(co)
    ensures WaitsOk(P.Apply(co, step))
  {
    var co' := P.Apply(co, step);
    ClockRuns(co, step);
    forall c | c in co'.tasks && co'.tasks[c].pc.TimedOut? ensures co'.deadline <= co'.tasks[c].pc.waited {
      TimedOutBefore(co, step, c);
    }
  }

  /** The failure a caller is told of is that of a run for its key. */
  lemma FailureIsOfARun(co: P.State, failed: set<(Key, string)>, c: nat)
    requires P.Inv(co) && FailuresRecorded(co, failed) && c in co.tasks
    requires co.tasks[c].pc.Answered? && co.tasks[c].pc.outcome.Failed?
    ensures (co.tasks[c].key, co.tasks[c].pc.outcome.reason) in failed
  {
    assert P.TaskOk(co, c);
    match co.tasks[c].pc.via {
      case FromMemo(_, _) =>
        var run: nat :| P.CameFrom(co, co.tasks[c].key, run, co.tasks[c].pc.outcome);
      case FromOwnFetch(run) =>
      case FromSubscription(run) =>
    }
  }

  lemma LeaveTells(s: State, t: nat, detail: string)
    requires Inv(s) && FailuresRecorded(s.coalescer, s.failed) && WaitsOk(s.coalescer)
    requires Enabled(s, LeaveCoalescer(t, detail))
    ensures NoteTaskOk(Apply(s, LeaveCoalescer(t, detail)), t)
  {
    var c := s.tasks[t].pc.caller;
    assert TaskOk(s, t);
    if s.coalescer.tasks[c].pc.Answered? && s.coalescer.tasks[c].pc.outcome.Failed? {
      FailureIsOfARun(s.coalescer, s.failed, c);
      assert (s.tasks[t].key, s.coalescer.tasks[c].pc.outcome.reason) in s.failed;
    }
  }

  lemma LeaveIsOneMove(s: State, t: nat, detail: string)
    requires Enabled(s, LeaveCoalescer(t, detail))
    ensures OneMove(s, Apply(s, LeaveCoalescer(t, detail)), t)
  {
  }

  lemma LeaveMoves(s: State, t: nat, detail: string)
    requires NotesInv(s) && Inv(s) && Enabled(s, LeaveCoalescer(t, detail))
    ensures NotesInv(Apply(s, LeaveCoalescer(t, detail)))
  {
    LeaveIsOneMove(s, t, detail);
    LeaveTells(s, t, detail);
    OneMoveKeeps(s, Apply(s, LeaveCoalescer(t, detail)), t);
  }

  lemma EnterIsQuiet(s: State, t: nat, c: nat)
    requires Enabled(s, EnterCoalescer(t, c))
    ensures P.Enabled(s.coalescer, P.Call(c, s.tasks[t].key))
    ensures QuietMove(ApplyCoalescerStep(s, P.Call(c, s.tasks[t].key)), Apply(s, EnterCoalescer(t, c)), t)
  {
  }

  lemma EnterMoves(s: State, t: nat, c: nat)
    requires NotesInv(s) && P.Inv(s.coalescer) && Enabled(s, EnterCoalescer(t, c))
    ensures NotesInv(Apply(s, EnterCoalescer(t, c)))
  {
    EnterIsQuiet(s, t, c);
    CoalescerMoves(s, P.Call(c, s.tasks[t].key));
    QuietKeeps(ApplyCoalescerStep(s, P.Call(c, s.tasks[t].key)), Apply(s, EnterCoalescer(t, c)), t);
  }

  lemma RestartMoves(s: State)
    requires NotesInv(s)
    ensures NotesInv(Apply(s, Restart))
  {
    var s' := Apply(s, Restart);
    forall n | n in s'.notes ensures Justified(s', n) { assert Justified(s, n); }
  }

  lemma ForgetMoves(s: State, k: Key)
    requires NotesInv(s)
    ensures NotesInv(Apply(s, LoseNote(k)))
  {
    N.ForgetKeepsInv(s.negative, s.capacity, k);
    MemoShrinks(s, Apply(s, LoseNote(k)));
    SameTasks(s, Apply(s, LoseNote(k)));
  }

  lemma SameTasks(s: State, s': State)
    requires NotesInv(s) && s'.coalescer == s.coalescer && s'.notes == s.notes && s'.failed == s.failed
    requires LaterThan(s, s') && MemoOk(s')
    requires forall u :: u in s'.tasks ==> u in s.tasks && s'.tasks[u] == s.tasks[u]
    ensures NotesInv(s')
  {
    forall u | u in s'.tasks ensures NoteTaskOk(s', u) { TaskStaysOk(s, s', u); }
    TaskMoves(s, s', 0);
  }

  /** A state in which a task says nothing about notes. */
  predicate QuietPc(pc: Pc) {
    match pc
    case Noting(_, _) => false
    case Finished(FromNote(_, _)) => false
    case Finished(Refused(_)) => false
    case _ => true
  }

  ghost predicate QuietMove(s: State, s': State, t: nat) {
    OneMove(s, s', t) && t in s'.tasks && QuietPc(s'.tasks[t].pc)
  }

  lemma QuietKeeps(s: State, s': State, t: nat)
    requires NotesInv(s) && QuietMove(s, s', t)
    ensures NotesInv(s')
  {
    OneMoveKeeps(s, s', t);
  }

  lemma ReadsAreQuiet(s: State, t: nat, k: Key, ok: bool)
    ensures Enabled(s, Begin(t, k)) ==> QuietMove(s, Apply(s, Begin(t, k)), t)
    ensures Enabled(s, ReadExact(t, ok)) ==> QuietMove(s, Apply(s, ReadExact(t, ok)), t)
    ensures Enabled(s, Remember(t, ok)) ==> QuietMove(s, Apply(s, Remember(t, ok)), t)
  {
  }

  lemma JudgeIsQuiet(s: State, t: nat, ok: bool)
    requires Enabled(s, Judge(t, ok))
    ensures QuietMove(s, Apply(s, Judge(t, ok)), t)
  {
  }

  lemma ReadNextIsQuiet(s: State, t: nat, ok: bool)
    requires Enabled(s, ReadNext(t, ok))
    ensures QuietMove(s, Apply(s, ReadNext(t, ok)), t)
  {
  }

  lemma EnvironmentMoves(s: State, step: Step)
    requires NotesInv(s) && Enabled(s, step)
    requires step.DropTask? || step.LoseRow? || step.LoseBytes? || step.StoreBytes? || step.ClearNotes?
    ensures NotesInv(Apply(s, step))
  {
    var s' := Apply(s, step);
    MemoShrinks(s, s');
    SameTasks(s, s');
  }

  /** Steps of one task that read a store and say nothing of notes. */
  lemma QuietSteps(s: State, step: Step)
    requires NotesInv(s) && Enabled(s, step)
    requires step.Begin? || step.ReadExact? || step.Judge? || step.ReadNext? || step.Remember?
    ensures NotesInv(Apply(s, step))
  {
    match step
    case Begin(t, k) => ReadsAreQuiet(s, t, k, true); QuietKeeps(s, Apply(s, step), t);
    case ReadExact(t, ok) => ReadsAreQuiet(s, t, s.tasks[t].key, ok); QuietKeeps(s, Apply(s, step), t);
    case Judge(t, ok) => JudgeIsQuiet(s, t, ok); QuietKeeps(s, Apply(s, step), t);
    case ReadNext(t, ok) => ReadNextIsQuiet(s, t, ok); QuietKeeps(s, Apply(s, step), t);
    case Remember(t, ok) => ReadsAreQuiet(s, t, s.tasks[t].key, ok); QuietKeeps(s, Apply(s, step), t);
  }

  lemma StepKeepsNotes(s: State, step: Step)
    requires NotesInv(s) && Inv(s) && Enabled(s, step)
    ensures NotesInv(Apply(s, step))
  {
    match step
    case ReadNote(t) => ReadNoteMoves(s, t);
    case WriteVerdict(c, local, admit, online) =>
      WriteKeeps(s, s.coalescer.tasks[c].key, RunVerdict(local, admit, online));
    case WriteNote(t) => WriteNoteMoves(s, t);
    case CoalescerStep(inner) => CoalescerMoves(s, inner);
    case EnterCoalescer(t, c) => EnterMoves(s, t, c);
    case LeaveCoalescer(t, detail) => LeaveMoves(s, t, detail);
    case LoseNote(k) => ForgetMoves(s, k);
    case Restart => RestartMoves(s);
    case DropTask(_) => EnvironmentMoves(s, step);
    case LoseRow(_) => EnvironmentMoves(s, step);
    case LoseBytes(_) => EnvironmentMoves(s, step);
    case StoreBytes(_) => EnvironmentMoves(s, step);
    case ClearNotes => EnvironmentMoves(s, step);
    case _ => QuietSteps(s, step);
  }

  lemma {:induction false} RunKeepsNotes(s: State, steps: seq<Step>)
    requires NotesInv(s) && Inv(s) && CanRun(s, steps)
    ensures NotesInv(After(s, steps))
    decreases |steps|
  {
    if steps != [] {
      StepKeepsNotes(s, steps[0]);
      StepKeepsInv(s, steps[0]);
      RunKeepsNotes(Apply(s, steps[0]), steps[1..]);
    }
  }

  lemma ReachableNotes(s: State)
    requires Reachable(s)
    ensures NotesInv(s)
  {
    var s0, steps :| Init(s0) && CanRun(s0, steps) && After(s0, steps) == s;
    FreshCoalescerInv(s0.coalescer);
    assert Inv(s0) && NotesInv(s0);
    RunKeepsNotes(s0, steps);
  }

  /** A note for the key that was written before, is not expired, and has its cause. */
  ghost predicate AnswersFrom(s: State, k: Key, e: N.Entry, readAt: nat, n: Note) {
    && n in s.notes && n.key == k && n.entry == e && n.at <= readAt < e.expiresAt && Justified(s, n)
    && e.expiresAt == n.at + if n.cause.RunVerdict? then s.noteTtl else 300
  }

  /**
   In every interleaving, across restarts, a negative answer is an unexpired note for exactly that key:
   the verdict of a run of it, the failure of a run of it, or a wait on it that lasted past its
   deadline. A refusal tells the failure of a run of the key, or such a wait.
   */
  lemma NegativeAnswersHaveCauses(s: State, t: nat)
    requires Reachable(s) && t in s.tasks && s.tasks[t].pc.Finished?
    ensures match s.tasks[t].pc.answer
            case FromNote(e, at) => exists n :: AnswersFrom(s, s.tasks[t].key, e, at, n)
            case Refused(outcome) => RefusalOk(s, s.tasks[t].key, outcome)
            case _ => true
  {
    ReachableNotes(s);
    assert NoteTaskOk(s, t);
    match s.tasks[t].pc.answer
    case FromNote(e, at) =>
      var n :| n in s.notes && n.key == s.tasks[t].key && n.entry == e && n.at <= at;
      assert AnswersFrom(s, s.tasks[t].key, e, at, n);
    case _ =>
  }

  // ---------------------------------------------------------------------------
  // A note hides a stored picture
  // ---------------------------------------------------------------------------

  ghost predicate LiveNote(s: State, k: Key) {
    k in s.negative.entries && s.coalescer.now < s.negative.entries[k].expiresAt
  }

  /** The row of the key is current and its bytes are there. */
  ghost predicate PictureStored(s: State, k: Key, hash: string) {
    I.Find(s.rows, k) == Some(I.Hit(hash, CASCADE_LOGIC_VERSION)) && hash in s.blobs
  }

  lemma RunFirst(s: State, step: Step, steps: seq<Step>)
    requires Enabled(s, step) && CanRun(Apply(s, step), steps)
    ensures CanRun(s, [step] + steps) && After(s, [step] + steps) == After(Apply(s, step), steps)
  {
    assert ([step] + steps)[1..] == steps;
  }

  /**
   With working stores a resolve of a key whose picture is stored answers the picture, unless a live
   note of the key is read first.
   */
  lemma StoredPictureAnswersIff(s: State, t: nat, hash: string)
    requires t in s.tasks && s.tasks[t].pc.Starting? && PictureStored(s, s.tasks[t].key, hash)
    ensures var k := s.tasks[t].key; var s1 := Apply(s, ReadNote(t));
            if LiveNote(s, k) then s1.tasks[t].pc == Finished(FromNote(s.negative.entries[k], s.coalescer.now))
            else
              && CanRun(s1, [ReadExact(t, true)] + ([Judge(t, true)] + []))
              && var s3 := After(s1, [ReadExact(t, true)] + ([Judge(t, true)] + []));
                 t in s3.tasks && s3.tasks[t].pc == Finished(FromIndex(hash, k.size, s.assetsWired))
  {
    var s1 := Apply(s, ReadNote(t));
    if !LiveNote(s, s.tasks[t].key) {
      var s2 := Apply(s1, ReadExact(t, true));
      RunFirst(s2, Judge(t, true), []);
      RunFirst(s1, ReadExact(t, true), [Judge(t, true)] + []);
    }
  }

  lemma {:induction false} AfterAppend(s: State, steps: seq<Step>, step: Step)
    requires CanRun(s, steps) && Enabled(After(s, steps), step)
    ensures CanRun(s, steps + [step]) && After(s, steps + [step]) == Apply(After(s, steps), step)
    decreases |steps|
  {
    if steps == [] {
      assert [] + [step] == [step] && [step][1..] == [];
    } else {
      AfterAppend(Apply(s, steps[0]), steps[1..], step);
      assert (steps + [step])[1..] == steps[1..] + [step];
    }
  }

  lemma Advance(s: State, step: Step) returns (s': State)
    requires Reachable(s) && Enabled(s, step)
    ensures s' == Apply(s, step) && Reachable(s')
  {
    s' := Apply(s, step);
    var s0, steps :| Init(s0) && CanRun(s0, steps) && After(s0, steps) == s;
    AfterAppend(s0, steps, step);
    assert After(s0, steps + [step]) == s';
  }

  /** The task is about to look at the `n`-th fallback size, and finds every store faulting. */
  lemma {:induction false} SkipFallback(s: State, t: nat, n: nat) returns (s': State)
    requires Reachable(s) && t in s.tasks && n <= 5 && s.tasks[t].pc == ReadingFallback(n)
    ensures Reachable(s') && s' == Move(s, t, ReadingFallback(5))
    decreases 5 - n
  {
    if n == 5 {
      s' := s;
      assert s.tasks[t := s.tasks[t]] == s.tasks;
    } else {
      var s1 := Advance(s, ReadNext(t, false));
      s' := SkipFallback(s1, t, n + 1);
    }
  }

  lemma BeginAdvance(s: State, t: nat, k: Key) returns (s': State)
    requires Reachable(s) && t !in s.tasks
    ensures Reachable(s') && s' == s.(tasks := s.tasks[t := Task(k, Starting)])
  {
    s' := Advance(s, Begin(t, k));
  }

  lemma NoNoteAdvance(s: State, t: nat) returns (s': State)
    requires Reachable(s) && t in s.tasks && s.tasks[t].pc.Starting? && s.tasks[t].key !in s.negative.entries
    ensures Reachable(s') && s' == s.(tasks := s.tasks[t := s.tasks[t].(pc := ReadingExact)])
  {
    s' := Advance(s, ReadNote(t));
  }

  lemma NoRowAdvance(s: State, t: nat) returns (s': State)
    requires Reachable(s) && t in s.tasks && s.tasks[t].pc.ReadingExact?
    ensures Reachable(s') && s' == s.(tasks := s.tasks[t := s.tasks[t].(pc := ReadingFallback(0))])
  {
    s' := Advance(s, ReadExact(t, false));
  }

  lemma ReadNothing(s: State, t: nat, k: Key) returns (s': State)
    requires Reachable(s) && t !in s.tasks && k !in s.negative.entries
    ensures Reachable(s') && s' == s.(tasks := s.tasks[t := Task(k, ReadingFallback(0))])
  {
    var s1 := BeginAdvance(s, t, k);
    var s2 := NoNoteAdvance(s1, t);
    s' := NoRowAdvance(s2, t);
  }

  lemma ToCoalescer(s: State, t: nat, c: nat, k: Key) returns (s': State)
    requires Reachable(s) && t !in s.tasks && c !in s.coalescer.tasks && k !in s.negative.entries
    ensures Reachable(s')
    ensures s' == s.(tasks := s.tasks[t := Task(k, Coalescing(c))], coalescer := P.Apply(s.coalescer, P.Call(c, k)))
  {
    var s1 := ReadNothing(s, t, k);
    var s2 := SkipFallback(s1, t, 0);
    s' := Advance(s2, EnterCoalescer(t, c));
  }

  /** One resolve fetches a key and another waits for it, past its deadline. */
  ghost predicate Stalled(s: State, k: Key) {
    && s.tasks == map[0 := Task(k, Coalescing(0)), 1 := Task(k, Coalescing(1))]
    && 0 in s.coalescer.tasks && s.coalescer.tasks[0].key == k && s.coalescer.tasks[0].pc.Fetching?
    && P.Enabled(s.coalescer, P.GiveUp(1)) && k !in s.negative.entries
  }

  lemma CoalescerAdvance(s: State, step: P.Step) returns (s': State)
    requires Reachable(s) && !step.Call? && !step.FetchEnds? && P.Enabled(s.coalescer, step)
    ensures s' == s.(coalescer := P.Apply(s.coalescer, step)) && Reachable(s')
  {
    s' := Advance(s, CoalescerStep(step));
  }

  /** A first caller claims the slot of the key. */
  ghost predicate Claimed(co: P.State, k: Key) {
    && co.tasks == map[0 := P.Task(k, P.Fetching(0), {}, 2)]
    && co.tables.memo == map[] && co.tables.inflight == map[k := 0]
    && co.tables.channels == [C.Open] && |co.births| == 1
  }

  lemma FirstClaims(co: P.State, k: Key) returns (co1: P.State, co2: P.State)
    requires P.Init(co)
    ensures P.Enabled(co, P.Call(0, k)) && co1 == P.Apply(co, P.Call(0, k))
    ensures P.Enabled(co1, P.LookUp(0)) && co2 == P.Apply(co1, P.LookUp(0))
    ensures P.Enabled(co2, P.Enter(0)) && Claimed(P.Apply(co2, P.Enter(0)), k)
  {
    co1 := P.Apply(co, P.Call(0, k));
    co2 := P.Apply(co1, P.LookUp(0));
  }

  lemma SecondJoins(co: P.State, k: Key) returns (co1: P.State, co2: P.State, co3: P.State)
    requires Claimed(co, k)
    ensures P.Enabled(co, P.Call(1, k)) && co1 == P.Apply(co, P.Call(1, k))
    ensures P.Enabled(co1, P.LookUp(1)) && co2 == P.Apply(co1, P.LookUp(1))
    ensures P.Enabled(co2, P.Enter(1)) && co3 == P.Apply(co2, P.Enter(1))
    ensures P.Enabled(P.Apply(co3, P.Tick(co3.deadline)), P.GiveUp(1))
    ensures P.Apply(co3, P.Tick(co3.deadline)).tasks[0] == co.tasks[0]
  {
    co1 := P.Apply(co, P.Call(1, k));
    co2 := P.Apply(co1, P.LookUp(1));
    co3 := P.Apply(co2, P.Enter(1));
  }

  lemma FirstFetches(s0: State, k: Key) returns (s: State)
    requires Init(s0)
    ensures Reachable(s) && Claimed(s.coalescer, k) && s.negative == N.EMPTY && s.capacity == s0.capacity
    ensures s.tasks == map[0 := Task(k, Coalescing(0))]
  {
    assert CanRun(s0, []) && After(s0, []) == s0;
    var co1, co2 := FirstClaims(s0.coalescer, k);
    var s1 := ToCoalescer(s0, 0, 0, k);
    var s2 := CoalescerAdvance(s1, P.LookUp(0));
    s := CoalescerAdvance(s2, P.Enter(0));
  }

  /** A resolve and then another reach the coalescer with nothing known; the first claims, the second joins. */
  lemma StalledIsReachable(s0: State, k: Key) returns (s: State)
    requires Init(s0)
    ensures Reachable(s) && Stalled(s, k)
  {
    var first := FirstFetches(s0, k);
    var co1, co2, co3 := SecondJoins(first.coalescer, k);
    var s1 := ToCoalescer(first, 1, 1, k);
    var s2 := CoalescerAdvance(s1, P.LookUp(1));
    var s3 := CoalescerAdvance(s2, P.Enter(1));
    s := CoalescerAdvance(s3, P.Tick(co3.deadline));
  }

  lemma LeaveAdvance(s: State, t: nat, detail: string) returns (s': State)
    requires Reachable(s) && Enabled(s, LeaveCoalescer(t, detail))
    ensures Reachable(s')
    ensures var pc := s.coalescer.tasks[s.tasks[t].pc.caller].pc;
            s' == Move(s, t, AfterCoalescing(s.tasks[t].key, s.noteTtl, pc, detail))
  {
    s' := Advance(s, LeaveCoalescer(t, detail));
  }

  lemma NoteAdvance(s: State, t: nat, waited: nat, detail: string) returns (s': State)
    requires Reachable(s) && t in s.tasks && s.tasks[t].pc == Noting(GaveUp(waited, detail), CoalescerDeadline(detail))
    ensures Reachable(s') && LiveNote(s', s.tasks[t].key)
    ensures s'.negative.entries[s.tasks[t].key].status == "coalescer_deadline"
    ensures s'.coalescer == s.coalescer && s'.tasks.Keys == s.tasks.Keys
    ensures forall u :: u in s.tasks && u != t ==> s'.tasks[u] == s.tasks[u]
  {
    s' := Advance(s, WriteNote(t));
  }

  /** The waiter gives up and notes it. */
  lemma GivesUp(s: State, k: Key, detail: string) returns (s': State)
    requires Reachable(s) && Stalled(s, k)
    ensures Reachable(s') && LiveNote(s', k) && s'.negative.entries[k].status == "coalescer_deadline"
    ensures 0 in s'.tasks && s'.tasks[0] == Task(k, Coalescing(0)) && 2 !in s'.tasks
    ensures 0 in s'.coalescer.tasks && s'.coalescer.tasks[0] == s.coalescer.tasks[0]
  {
    var s1 := CoalescerAdvance(s, P.GiveUp(1));
    var s2 := LeaveAdvance(s1, 1, detail);
    s' := NoteAdvance(s2, 1, s1.coalescer.tasks[1].pc.waited, detail);
  }

  lemma FetchAdvance(s: State, c: nat, o: Outcome) returns (s': State)
    requires Reachable(s) && P.Enabled(s.coalescer, P.FetchEnds(c, o))
    ensures Reachable(s') && s'.coalescer == P.Apply(s.coalescer, P.FetchEnds(c, o))
    ensures s'.negative == s.negative && s'.tasks == s.tasks
  {
    s' := Advance(s, CoalescerStep(P.FetchEnds(c, o)));
  }

  /** The fetch lands and is released. */
  lemma FetchLands(s: State, hash: string) returns (s': State)
    requires Reachable(s) && 0 in s.coalescer.tasks && s.coalescer.tasks[0].pc.Fetching?
    ensures Reachable(s') && s'.tasks == s.tasks && s'.negative == s.negative && s'.coalescer.now == s.coalescer.now
    ensures 0 in s'.coalescer.tasks && s'.coalescer.tasks[0].pc.Answered?
    ensures s'.coalescer.tasks[0].pc.outcome == Resolved(hash, None)
  {
    var s1 := FetchAdvance(s, 0, Resolved(hash, None));
    var s2 := CoalescerAdvance(s1, P.WriteMemo(0));
    ReachableCoalescer(s2);
    s' := CoalescerAdvance(s2, P.Release(0));
  }

  lemma RememberAdvance(s: State, t: nat, hash: string) returns (s': State)
    requires Reachable(s) && t in s.tasks && s.tasks[t].pc == Remembering(hash) && I.IsValidContentHash(hash)
    ensures Reachable(s') && s'.negative == s.negative && s'.coalescer == s.coalescer && s'.tasks.Keys == s.tasks.Keys
    ensures I.Find(s'.rows, s.tasks[t].key) == Some(I.Hit(hash, CASCADE_LOGIC_VERSION))
  {
    s' := Advance(s, Remember(t, true));
  }

  /** The fetch lands, and its resolve stores the picture. */
  lemma Lands(s: State, k: Key, hash: string) returns (s': State)
    requires Reachable(s) && 0 in s.tasks && s.tasks[0] == Task(k, Coalescing(0)) && 2 !in s.tasks
    requires 0 in s.coalescer.tasks && s.coalescer.tasks[0].key == k && s.coalescer.tasks[0].pc.Fetching?
    requires I.IsValidContentHash(hash)
    ensures Reachable(s') && PictureStored(s', k, hash) && 2 !in s'.tasks
    ensures s'.negative == s.negative && s'.coalescer.now == s.coalescer.now
  {
    var s1 := FetchLands(s, hash);
    var s2 := LeaveAdvance(s1, 0, "");
    var s3 := RememberAdvance(s2, 0, hash);
    s' := Advance(s3, StoreBytes(hash));
  }

  lemma ReachableCoalescer(s: State)
    requires Reachable(s)
    ensures P.Inv(s.coalescer)
  {
    var s0, steps :| Init(s0) && CanRun(s0, steps) && After(s0, steps) == s;
    FreshCoalescerInv(s0.coalescer);
    RunKeepsInv(s0, steps);
  }

  /**
   The fast path can be closed by a wait that gave up: the fetch it waited for lands and its picture
   is stored, yet the next resolve replays the note.
   */
  lemma GivenUpWaitHidesPicture(s0: State, k: Key, hash: string, detail: string) returns (s: State)
    requires Init(s0) && I.IsValidContentHash(hash)
    ensures Reachable(s) && PictureStored(s, k, hash)
    ensures 2 in s.tasks && s.tasks[2].key == k && s.tasks[2].pc.Finished? && s.tasks[2].pc.answer.FromNote?
    ensures s.tasks[2].pc.answer.entry.status == "coalescer_deadline"
  {
    var s1 := StalledIsReachable(s0, k);
    var s2 := GivesUp(s1, k, detail);
    var s3 := Lands(s2, k, hash);
    var s4 := Advance(s3, Begin(2, k));
    s := Advance(s4, ReadNote(2));
  }
}
