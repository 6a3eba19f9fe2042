/**
 Many resolves at once over one negative memo, one coalescer and one persistent index, across
 restarts.

 Every read or write of a store is a step of its own and may fault. Notes, rows and bytes may also
 vanish at any moment: refreshes, drift evictions and quota evictions only ever remove them,
 so the environment may remove whatever it likes. `landed`, `failed` and `notes` are history: the
 hashes that runs of the cascade produced and the reasons they failed for, by key, and every note
 written to the negative memo.
 */
module CascadeRuns {
  import opened Common
  import opened ArtworkTypes
  import opened CascadeTiers
  import C = Coalescer
  import P = CoalescerProtocol
  import CI = CoalescerInvariant
  import I = ResolveIndex
  import N = NegativeMemo
  import opened Cascade

  datatype Answer =
    | FromNote(entry: N.Entry, readAt: nat)
    | FromIndex(hash: string, served: string, probed: bool)
    | FromCascade(hash: string)
    | Refused(outcome: CascadeOutcome)

  /** Why a note was written: a running fetch's verdict, a run that failed, or a wait that gave up. */
  datatype Cause =
    | RunVerdict(local: Tier, admit: Admit, online: Tier)
    | FailedRun(reason: string)
    | GaveUp(waited: nat, detail: string)

  datatype Note = Note(key: Key, cause: Cause, entry: N.Entry, at: nat)

  datatype Pc =
    | Starting
    | ReadingExact
    | Judging(served: string, hit: I.Hit, fallback: bool)
    | ReadingFallback(next: nat)
    | Coalescing(caller: nat)
    | Remembering(hash: string)
    | Noting(cause: Cause, outcome: CascadeOutcome)
    | Finished(answer: Answer)

  datatype Task = Task(key: Key, pc: Pc)

  datatype State = State(
    coalescer: P.State,
    capacity: nat,
    noteTtl: nat,
    assetsWired: bool,
    negative: N.Store,
    rows: map<Key, I.Row>,
    blobs: set<string>,
    tasks: map<nat, Task>,
    landed: set<(Key, string)>,
    failed: set<(Key, string)>,
    notes: set<Note>)

  datatype Step =
    | Begin(task: nat, key: Key)
    | ReadNote(task: nat)
    | ReadExact(task: nat, ok: bool)
    | Judge(task: nat, ok: bool)
    | ReadNext(task: nat, ok: bool)
    | EnterCoalescer(task: nat, caller: nat)
    | CoalescerStep(step: P.Step)
    | WriteVerdict(caller: nat, local: Tier, admit: Admit, online: Tier)
    | LeaveCoalescer(task: nat, detail: string)
    | WriteNote(task: nat)
    | Remember(task: nat, ok: bool)
    | DropTask(task: nat)
    | LoseNote(key: Key)
    | ClearNotes
    | LoseRow(key: Key)
    | LoseBytes(hash: string)
    | StoreBytes(hash: string)
    | Restart

  /** First boot: rows of older builds may be there, none of the current version. */
  ghost predicate Init(s: State) {
    && P.Init(s.coalescer) && s.tasks == map[] && s.landed == {} && s.failed == {} && s.notes == {}
    && s.negative == N.EMPTY && s.capacity >= 1
    && forall k :: k in s.rows && I.ReadRow(s.rows[k]).Some? ==>
         I.ReadRow(s.rows[k]).value.version != CASCADE_LOGIC_VERSION
  }

  /** The size probed at a position of the fallback: the requested one, then the taxonomy. */
  function Candidate(size: string, next: nat): Option<string>
    requires next <= 4
  {
    if next == 0 then Some(size)
    else if I.MayServe(I.SIZE_FALLBACK_ORDER[next - 1], size) then Some(I.SIZE_FALLBACK_ORDER[next - 1])
    else None
  }

  /** What is noted, if anything, and for how long. */
  function NoteOf(key: Key, noteTtl: nat, cause: Cause): Option<(Negative, nat)> {
    match cause
    case RunVerdict(local, admit, online) =>
      (match RunCascade(key.scheme, local, admit, online).1
       case None => None
       case Some(note) => Some((note, noteTtl)))
    case FailedRun(reason) =>
      (match TransientNote(ClassifyFetcherError(reason))
       case None => None
       case Some(note) => Some((note, TRANSIENT_MEMO_TTL)))
    case GaveUp(_, detail) => Some((Negative("coalescer_deadline", detail, None), TRANSIENT_MEMO_TTL))
  }

  /** The note is written to the memo and to the history. */
  ghost function Write(s: State, key: Key, cause: Cause): State
    requires NoteOf(key, s.noteTtl, cause).Some?
  {
    var (note, life) := NoteOf(key, s.noteTtl, cause).value;
    var entry := N.Entry(note.status, note.detail, note.provider, s.coalescer.now + life);
    s.(negative := N.Put(s.negative, s.capacity, key, entry, s.coalescer.now),
       notes := s.notes + {Note(key, cause, entry, s.coalescer.now)})
  }

  ghost predicate Ended(s: State, t: nat)
    requires t in s.tasks && s.tasks[t].pc.Coalescing?
  {
    var c := s.tasks[t].pc.caller;
    c in s.coalescer.tasks && (s.coalescer.tasks[c].pc.Answered? || s.coalescer.tasks[c].pc.TimedOut?)
  }

  ghost predicate Enabled(s: State, step: Step) {
    match step
    case Begin(t, _) => t !in s.tasks
    case ReadNote(t) => t in s.tasks && s.tasks[t].pc.Starting?
    case ReadExact(t, _) => t in s.tasks && s.tasks[t].pc.ReadingExact?
    case Judge(t, _) => t in s.tasks && s.tasks[t].pc.Judging?
    case ReadNext(t, _) => t in s.tasks && s.tasks[t].pc.ReadingFallback? && s.tasks[t].pc.next <= 4
    case EnterCoalescer(t, c) =>
      t in s.tasks && s.tasks[t].pc == ReadingFallback(5) && P.Enabled(s.coalescer, P.Call(c, s.tasks[t].key))
    case CoalescerStep(step) => !step.Call? && P.Enabled(s.coalescer, step)
    case WriteVerdict(c, local, admit, online) =>
      && c in s.coalescer.tasks && s.coalescer.tasks[c].pc.Fetching?
      && NoteOf(s.coalescer.tasks[c].key, s.noteTtl, RunVerdict(local, admit, online)).Some?
    case LeaveCoalescer(t, _) => t in s.tasks && s.tasks[t].pc.Coalescing? && Ended(s, t)
    case WriteNote(t) =>
      t in s.tasks && s.tasks[t].pc.Noting? && NoteOf(s.tasks[t].key, s.noteTtl, s.tasks[t].pc.cause).Some?
    case Remember(t, _) => t in s.tasks && s.tasks[t].pc.Remembering?
    case DropTask(t) => t in s.tasks
    case _ => true
  }

  ghost function Move(s: State, t: nat, pc: Pc): State
    requires t in s.tasks
  {
    s.(tasks := s.tasks[t := s.tasks[t].(pc := pc)])
  }

  /** Where a task goes when a hit turned out unusable. */
  function AfterBadHit(fallback: bool): Pc {
    if fallback then ReadingFallback(5) else ReadingFallback(0)
  }

  ghost function ApplyJudge(s: State, t: nat, ok: bool): State
    requires Enabled(s, Judge(t, ok))
  {
    var pc := s.tasks[t].pc;
    if pc.hit.version != CASCADE_LOGIC_VERSION then Move(s, t, AfterBadHit(pc.fallback))
    else if !s.assetsWired || !ok then Move(s, t, Finished(FromIndex(pc.hit.hash, pc.served, false)))
    else if pc.hit.hash in s.blobs then Move(s, t, Finished(FromIndex(pc.hit.hash, pc.served, true)))
    else Move(s, t, AfterBadHit(pc.fallback))
  }

  ghost function ApplyReadNext(s: State, t: nat, ok: bool): State
    requires Enabled(s, ReadNext(t, ok))
  {
    var k, n := s.tasks[t].key, s.tasks[t].pc.next;
    var candidate := Candidate(k.size, n);
    var hit := if ok && candidate.Some? then I.Find(s.rows, Key(k.scheme, k.value, candidate.value)) else None;
    if hit.Some? then Move(s, t, Judging(candidate.value, hit.value, true))
    else Move(s, t, ReadingFallback(n + 1))
  }

  ghost function ApplyCoalescerStep(s: State, step: P.Step): State
    requires P.Enabled(s.coalescer, step)
  {
    s.(coalescer := P.Apply(s.coalescer, step),
       landed := if step.FetchEnds? && step.outcome.Resolved?
                 then s.landed + {(s.coalescer.tasks[step.task].key, step.outcome.hash)}
                 else s.landed,
       failed := if step.FetchEnds? && step.outcome.Failed?
                 then s.failed + {(s.coalescer.tasks[step.task].key, step.outcome.reason)}
                 else s.failed)
  }

  /** Where a task goes with what it learned from the coalescer. */
  function AfterCoalescing(k: Key, noteTtl: nat, pc: P.Pc, detail: string): Pc
    requires pc.Answered? || pc.TimedOut?
  {
    match pc
    case TimedOut(waited) => Noting(GaveUp(waited, detail), CoalescerDeadline(detail))
    case Answered(Resolved(hash, _), _) => Remembering(hash)
    case Answered(Failed(reason), _) =>
      if NoteOf(k, noteTtl, FailedRun(reason)).Some? then Noting(FailedRun(reason), ClassifyFetcherError(reason))
      else Finished(Refused(ClassifyFetcherError(reason)))
  }

  ghost function ApplyReadNote(s: State, t: nat): State
    requires Enabled(s, ReadNote(t))
  {
    var (checked, hit) := N.Get(s.negative, s.tasks[t].key, s.coalescer.now);
    Move(s, t, if hit.Some? then Finished(FromNote(hit.value, s.coalescer.now)) else ReadingExact).(negative := checked)
  }

  ghost function Apply(s: State, step: Step): State
    requires Enabled(s, step)
  {
    match step
    case Begin(t, k) => s.(tasks := s.tasks[t := Task(k, Starting)])
    case ReadNote(t) => ApplyReadNote(s, t)
    case ReadExact(t, ok) =>
      var hit := if ok then I.Find(s.rows, s.tasks[t].key) else None;
      Move(s, t, if hit.Some? then Judging(s.tasks[t].key.size, hit.value, false) else ReadingFallback(0))
    case Judge(t, ok) => ApplyJudge(s, t, ok)
    case ReadNext(t, ok) => ApplyReadNext(s, t, ok)
    case EnterCoalescer(t, c) =>
      Move(s, t, Coalescing(c)).(coalescer := P.Apply(s.coalescer, P.Call(c, s.tasks[t].key)))
    case CoalescerStep(step) => ApplyCoalescerStep(s, step)
    case WriteVerdict(c, local, admit, online) =>
      Write(s, s.coalescer.tasks[c].key, RunVerdict(local, admit, online))
    case LeaveCoalescer(t, detail) =>
      Move(s, t, AfterCoalescing(s.tasks[t].key, s.noteTtl, s.coalescer.tasks[s.tasks[t].pc.caller].pc, detail))
    case WriteNote(t) =>
      Write(Move(s, t, Finished(Refused(s.tasks[t].pc.outcome))), s.tasks[t].key, s.tasks[t].pc.cause)
    case Remember(t, ok) =>
      var h := s.tasks[t].pc.hash;
      Move(s, t, Finished(FromCascade(h))).(
        rows := if ok && I.IsValidContentHash(h)
                then s.rows[s.tasks[t].key := I.Envelope(CASCADE_LOGIC_VERSION, h)] else s.rows)
    case DropTask(t) => s.(tasks := s.tasks - {t})
    case LoseNote(k) => s.(negative := N.Forget(s.negative, k))
    case ClearNotes => s.(negative := N.EMPTY)
    case LoseRow(k) => s.(rows := s.rows - {k})
    case LoseBytes(h) => s.(blobs := s.blobs - {h})
    case StoreBytes(h) => s.(blobs := s.blobs + {h})
    case Restart =>
      s.(tasks := map[], negative := N.EMPTY,
         coalescer := P.State(s.coalescer.ttl, s.coalescer.deadline, s.coalescer.now,
                              C.Tables(map[], map[], []), map[], [], map[]))
  }

  ghost predicate CanRun(s: State, steps: seq<Step>)
    decreases |steps|
  {
    steps == [] || (Enabled(s, steps[0]) && CanRun(Apply(s, steps[0]), steps[1..]))
  }

  ghost function After(s: State, steps: seq<Step>): State
    requires CanRun(s, steps)
    decreases |steps|
  {
    if steps == [] then s else After(Apply(s, steps[0]), steps[1..])
  }

  ghost predicate Reachable(s: State) {
    exists s0, steps :: Init(s0) && CanRun(s0, steps) && After(s0, steps) == s
  }

  /** A current-version row for `served` names a hash that some run produced for that key. */
  ghost predicate HitOk(s: State, k: Key, served: string, hit: I.Hit) {
    && (served == k.size || I.MayServe(served, k.size))
    && (hit.version == CASCADE_LOGIC_VERSION ==> (Key(k.scheme, k.value, served), hit.hash) in s.landed)
  }

  ghost predicate RowOk(s: State, k: Key)
    requires k in s.rows
  {
    I.ReadRow(s.rows[k]).Some? && I.ReadRow(s.rows[k]).value.version == CASCADE_LOGIC_VERSION ==>
      (k, I.ReadRow(s.rows[k]).value.hash) in s.landed
  }

  ghost predicate FetchOk(s: State, c: nat)
    requires P.TablesOk(s.coalescer) && c in s.coalescer.fetches && c < |s.coalescer.births|
  {
    s.coalescer.fetches[c].Resolved? ==>
      (s.coalescer.births[c].key, s.coalescer.fetches[c].hash) in s.landed
  }

  ghost predicate TaskOk(s: State, t: nat)
    requires t in s.tasks
  {
    var k := s.tasks[t].key;
    match s.tasks[t].pc
    case Judging(served, hit, _) => HitOk(s, k, served, hit)
    case ReadingFallback(n) => n <= 5
    case Coalescing(c) => c in s.coalescer.tasks && s.coalescer.tasks[c].key == k
    case Remembering(h) => (k, h) in s.landed
    case Finished(FromIndex(h, served, _)) => HitOk(s, k, served, I.Hit(h, CASCADE_LOGIC_VERSION))
    case Finished(FromCascade(h)) => (k, h) in s.landed
    case _ => true
  }

  ghost predicate Inv(s: State) {
    && P.Inv(s.coalescer)
    && (forall c :: c in s.coalescer.fetches ==> FetchOk(s, c))
    && (forall k :: k in s.rows ==> RowOk(s, k))
    && (forall t :: t in s.tasks ==> TaskOk(s, t))
  }

  lemma FreshCoalescerInv(co: P.State)
    requires P.Init(co)
    ensures P.Inv(co)
  {
  }

  lemma JudgeKeeps(s: State, t: nat, ok: bool)
    requires Inv(s) && Enabled(s, Judge(t, ok))
    ensures Inv(Apply(s, Judge(t, ok)))
  {
    var s' := Apply(s, Judge(t, ok));
    assert TaskOk(s, t);
    OneTaskMoved(s, s', t);
  }

  lemma ReadNextKeeps(s: State, t: nat, ok: bool)
    requires Inv(s) && Enabled(s, ReadNext(t, ok))
    ensures Inv(Apply(s, ReadNext(t, ok)))
  {
    var s' := Apply(s, ReadNext(t, ok));
    var k, n := s.tasks[t].key, s.tasks[t].pc.next;
    assert TaskOk(s, t);
    if s'.tasks[t].pc.Judging? {
      assert RowOk(s, Key(k.scheme, k.value, s'.tasks[t].pc.served));
    }
    OneTaskMoved(s, s', t);
  }

  /** A step that changes one task and neither the coalescer, the rows nor the history. */
  lemma OneTaskMoved(s: State, s': State, t: nat)
    requires Inv(s) && s'.coalescer == s.coalescer && s'.landed == s.landed && s'.rows == s.rows
    requires t in s'.tasks && TaskOk(s', t)
    requires forall u :: u in s'.tasks && u != t ==> u in s.tasks && s'.tasks[u] == s.tasks[u]
    ensures Inv(s')
  {
    forall c | c in s'.coalescer.fetches ensures FetchOk(s', c) { assert FetchOk(s, c); }
    forall k | k in s'.rows ensures RowOk(s', k) { assert RowOk(s, k); }
    forall u | u in s'.tasks ensures TaskOk(s', u) { if u != t { assert TaskOk(s, u); } }
  }

  lemma NothingMoved(s: State, s': State)
    requires Inv(s) && s'.coalescer == s.coalescer && s'.landed == s.landed && s'.rows == s.rows && s'.tasks == s.tasks
    ensures Inv(s')
  {
    forall c | c in s'.coalescer.fetches ensures FetchOk(s', c) { assert FetchOk(s, c); }
    forall k | k in s'.rows ensures RowOk(s', k) { assert RowOk(s, k); }
    forall u | u in s'.tasks ensures TaskOk(s', u) { assert TaskOk(s, u); }
  }

  lemma CoalescerStepKeeps(s: State, step: P.Step)
    requires Inv(s) && P.Enabled(s.coalescer, step)
    ensures Inv(ApplyCoalescerStep(s, step))
  {
    var s' := ApplyCoalescerStep(s, step);
    CI.StepKeepsInv(s.coalescer, step, s'.coalescer);
    assert s.landed <= s'.landed;
    FetchesStayLanded(s, step);
    forall k | k in s'.rows ensures RowOk(s', k) { assert RowOk(s, k); }
    forall u | u in s'.tasks ensures TaskOk(s', u) {
      assert TaskOk(s, u);
      if s.tasks[u].pc.Coalescing? { CallerKeepsKey(s.coalescer, step, s.tasks[u].pc.caller); }
    }
  }

  lemma CallerKeepsKey(co: P.State, step: P.Step, c: nat)
    requires P.Enabled(co, step) && c in co.tasks
    ensures c in P.Apply(co, step).tasks && P.Apply(co, step).tasks[c].key == co.tasks[c].key
  {
  }

  lemma FetchesStayLanded(s: State, step: P.Step)
    requires Inv(s) && P.Enabled(s.coalescer, step) && P.Inv(P.Apply(s.coalescer, step))
    ensures var s' := ApplyCoalescerStep(s, step);
            forall c :: c in s'.coalescer.fetches ==> FetchOk(s', c)
  {
    var s' := ApplyCoalescerStep(s, step);
    forall c | c in s'.coalescer.fetches ensures FetchOk(s', c) {
      if step.FetchEnds? && c == s.coalescer.tasks[step.task].pc.chan {
        assert P.TaskOk(s.coalescer, step.task);
      } else {
        assert FetchOk(s, c);
      }
    }
  }

  lemma LeaveKeeps(s: State, t: nat, detail: string)
    requires Inv(s) && Enabled(s, LeaveCoalescer(t, detail))
    ensures Inv(Apply(s, LeaveCoalescer(t, detail)))
  {
    var s' := Apply(s, LeaveCoalescer(t, detail));
    var c := s.tasks[t].pc.caller;
    assert TaskOk(s, t) && P.TaskOk(s.coalescer, c);
    var pc := s.coalescer.tasks[c].pc;
    if pc.Answered? && pc.outcome.Resolved? {
      match pc.via {
        case FromMemo(_, _) =>
          var run: nat :| P.CameFrom(s.coalescer, s.tasks[t].key, run, pc.outcome);
          assert FetchOk(s, run);
        case FromOwnFetch(run) => assert FetchOk(s, run);
        case FromSubscription(run) => assert FetchOk(s, run);
      }
    }
    OneTaskMoved(s, s', t);
  }

  lemma RememberKeeps(s: State, t: nat, ok: bool)
    requires Inv(s) && Enabled(s, Remember(t, ok))
    ensures Inv(Apply(s, Remember(t, ok)))
  {
    var s' := Apply(s, Remember(t, ok));
    assert TaskOk(s, t);
    forall c | c in s'.coalescer.fetches ensures FetchOk(s', c) { assert FetchOk(s, c); }
    forall k | k in s'.rows ensures RowOk(s', k) { if k != s.tasks[t].key { assert RowOk(s, k); } }
    forall u | u in s'.tasks ensures TaskOk(s', u) { assert TaskOk(s, u); }
  }

  lemma EnterKeeps(s: State, t: nat, c: nat)
    requires Inv(s) && Enabled(s, EnterCoalescer(t, c))
    ensures Inv(Apply(s, EnterCoalescer(t, c)))
  {
    var mid := ApplyCoalescerStep(s, P.Call(c, s.tasks[t].key));
    CoalescerStepKeeps(s, P.Call(c, s.tasks[t].key));
    OneTaskMoved(mid, Apply(s, EnterCoalescer(t, c)), t);
  }

  lemma BeginKeeps(s: State, t: nat, k: Key)
    requires Inv(s) && Enabled(s, Begin(t, k))
    ensures Inv(Apply(s, Begin(t, k)))
  {
    OneTaskMoved(s, Apply(s, Begin(t, k)), t);
  }

  lemma ReadNoteKeeps(s: State, t: nat)
    requires Inv(s) && Enabled(s, ReadNote(t))
    ensures Inv(Apply(s, ReadNote(t)))
  {
    OneTaskMoved(s, Apply(s, ReadNote(t)), t);
  }

  lemma ReadExactKeeps(s: State, t: nat, ok: bool)
    requires Inv(s) && Enabled(s, ReadExact(t, ok))
    ensures Inv(Apply(s, ReadExact(t, ok)))
  {
    if s.tasks[t].key in s.rows { assert RowOk(s, s.tasks[t].key); }
    OneTaskMoved(s, Apply(s, ReadExact(t, ok)), t);
  }

  lemma WriteVerdictKeeps(s: State, step: Step)
    requires Inv(s) && step.WriteVerdict? && Enabled(s, step)
    ensures Inv(Apply(s, step))
  {
    NothingMoved(s, Apply(s, step));
  }

  lemma WriteNoteKeeps(s: State, t: nat)
    requires Inv(s) && Enabled(s, WriteNote(t))
    ensures Inv(Apply(s, WriteNote(t)))
  {
    OneTaskMoved(s, Apply(s, WriteNote(t)), t);
  }

  lemma RestartKeeps(s: State)
    requires Inv(s)
    ensures Inv(Apply(s, Restart))
  {
    var s' := Apply(s, Restart);
    FreshCoalescerInv(s'.coalescer);
    forall k | k in s'.rows ensures RowOk(s', k) { assert RowOk(s, k); }
  }

  lemma DropTaskKeeps(s: State, t: nat)
    requires Inv(s) && Enabled(s, DropTask(t))
    ensures Inv(Apply(s, DropTask(t)))
  {
    var s' := Apply(s, DropTask(t));
    forall c | c in s'.coalescer.fetches ensures FetchOk(s', c) { assert FetchOk(s, c); }
    forall k | k in s'.rows ensures RowOk(s', k) { assert RowOk(s, k); }
    forall u | u in s'.tasks ensures TaskOk(s', u) { assert TaskOk(s, u); }
  }

  /** Rows, bytes and notes that come and go around the resolves. */
  lemma EnvironmentKeeps(s: State, step: Step)
    requires Inv(s) && Enabled(s, step)
    requires step.LoseRow? || step.LoseBytes? || step.StoreBytes? || step.LoseNote? || step.ClearNotes?
    ensures Inv(Apply(s, step))
  {
    var s' := Apply(s, step);
    assert s'.coalescer == s.coalescer && s'.landed == s.landed && s'.tasks == s.tasks;
    forall c | c in s'.coalescer.fetches ensures FetchOk(s', c) { assert FetchOk(s, c); }
    forall k | k in s'.rows ensures RowOk(s', k) { assert RowOk(s, k); }
    forall u | u in s'.tasks ensures TaskOk(s', u) { assert TaskOk(s, u); }
  }

  lemma StepKeepsInv(s: State, step: Step)
    requires Inv(s) && Enabled(s, step)
    ensures Inv(Apply(s, step))
  {
    match step
    case Begin(t, k) => BeginKeeps(s, t, k);
    case ReadNote(t) => ReadNoteKeeps(s, t);
    case ReadExact(t, ok) => ReadExactKeeps(s, t, ok);
    case Judge(t, ok) => JudgeKeeps(s, t, ok);
    case ReadNext(t, ok) => ReadNextKeeps(s, t, ok);
    case EnterCoalescer(t, c) => EnterKeeps(s, t, c);
    case CoalescerStep(inner) => CoalescerStepKeeps(s, inner);
    case WriteVerdict(_, _, _, _) => WriteVerdictKeeps(s, step);
    case LeaveCoalescer(t, detail) => LeaveKeeps(s, t, detail);
    case WriteNote(t) => WriteNoteKeeps(s, t);
    case Remember(t, ok) => RememberKeeps(s, t, ok);
    case DropTask(t) => DropTaskKeeps(s, t);
    case Restart => RestartKeeps(s);
    case _ => EnvironmentKeeps(s, step);
  }

  lemma {:induction false} RunKeepsInv(s: State, steps: seq<Step>)
    requires Inv(s) && CanRun(s, steps)
    ensures Inv(After(s, steps))
    decreases |steps|
  {
    if steps != [] {
      StepKeepsInv(s, steps[0]);
      RunKeepsInv(Apply(s, steps[0]), steps[1..]);
    }
  }

  /**
   In every interleaving, across restarts and faults, an answer served from the index is a
   hash that an earlier successful run of the cascade produced for the same scheme and value,
   at the requested size or a strictly larger one; an answer from the cascade came from a run
   for exactly that key. Stored rows of the current version never say anything else.
   */
  lemma AnswersComeFromSuccessfulRuns(s: State, t: nat)
    requires Reachable(s) && t in s.tasks && s.tasks[t].pc.Finished?
    ensures var k := s.tasks[t].key;
            match s.tasks[t].pc.answer
            case FromIndex(hash, served, _) =>
              && (Key(k.scheme, k.value, served), hash) in s.landed
              && (served == k.size || I.MayServe(served, k.size))
            case FromCascade(hash) => (k, hash) in s.landed
            case _ => true
    ensures forall k :: k in s.rows ==> RowOk(s, k)
  {
    var s0, steps :| Init(s0) && CanRun(s0, steps) && After(s0, steps) == s;
    FreshCoalescerInv(s0.coalescer);
    assert Inv(s0);
    RunKeepsInv(s0, steps);
    assert TaskOk(s, t);
  }
}
