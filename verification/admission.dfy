/**
 The two-bucket admission gate in front of the online providers, and every interleaving of
 its callers. A permit is held exactly while its guard lives; dropping a caller at a
 suspension point drops its guard.
 */
module Admission {
  import opened Common

  datatype Bucket = NowPlaying | Browse

  /** Permits free in each bucket. */
  datatype Free = Free(nowPlaying: nat, browse: nat)

  predicate IsNowPlayingScheme(scheme: string) {
    scheme == "mpd-path"
  }

  /** The immediate part of `admit`: only a now-playing scheme may take a reserved permit. */
  function TryReserve(free: Free, scheme: string): Option<Free> {
    if IsNowPlayingScheme(scheme) && free.nowPlaying > 0
    then Some(free.(nowPlaying := free.nowPlaying - 1))
    else None
  }

  /** Everything `admit` does before it may have to wait: a reserved permit, else a browse permit. */
  function AdmitAtOnce(free: Free, scheme: string): Option<(Bucket, Free)> {
    match TryReserve(free, scheme)
    case Some(rest) => Some((NowPlaying, rest))
    case None => if free.browse > 0 then Some((Browse, free.(browse := free.browse - 1))) else None
  }

  function GiveBack(free: Free, bucket: Bucket): Free {
    match bucket
    case NowPlaying => free.(nowPlaying := free.nowPlaying + 1)
    case Browse => free.(browse := free.browse + 1)
  }

  /** The gate object: two permit counters. */
  class Gate {
    var free: Free

    constructor (nowPlayingPermits: nat, browsePermits: nat)
      ensures free == Free(nowPlayingPermits, browsePermits)
    {
      free := Free(nowPlayingPermits, browsePermits);
    }

    /** Everything `admit` does before it may have to wait. */
    method AdmitNow(scheme: string) returns (got: Option<Bucket>)
      modifies this
      ensures match AdmitAtOnce(old(free), scheme)
              case Some((bucket, rest)) => got == Some(bucket) && free == rest && GiveBack(free, bucket) == old(free)
              case None => got == None && free == old(free)
    {
      if IsNowPlayingScheme(scheme) && free.nowPlaying > 0 {
        free := free.(nowPlaying := free.nowPlaying - 1);
        return Some(NowPlaying);
      }
      if free.browse > 0 {
        free := free.(browse := free.browse - 1);
        return Some(Browse);
      }
      got := None;
    }

    method DropGuard(bucket: Bucket)
      modifies this
      ensures free == GiveBack(old(free), bucket)
    {
      match bucket {
        case NowPlaying => free := free.(nowPlaying := free.nowPlaying + 1);
        case Browse => free := free.(browse := free.browse + 1);
      }
    }
  }

  // ---------------------------------------------------------------------------
  // The protocol
  // ---------------------------------------------------------------------------

  datatype Pc = Arriving | Queued(since: nat) | Dispatching(bucket: Bucket) | Refused | Left

  datatype Task = Task(scheme: string, pc: Pc)

  datatype State = State(size: Free, deadline: nat, now: nat, free: Free, tasks: map<nat, Task>)

  datatype Step =
    | Arrive(task: nat, scheme: string)
    | Try(task: nat)
    | Grant(task: nat)
    | Refuse(task: nat)
    | Finish(task: nat)
    | Cancel(task: nat)
    | Tick(elapsed: nat)

  ghost predicate Init(s: State) {
    s.free == s.size && s.tasks == map[]
  }

  ghost predicate Enabled(s: State, step: Step) {
    match step
    case Arrive(t, _) => t !in s.tasks
    case Try(t) => t in s.tasks && s.tasks[t].pc.Arriving?
    case Grant(t) => t in s.tasks && s.tasks[t].pc.Queued? && s.free.browse > 0
    case Refuse(t) => t in s.tasks && s.tasks[t].pc.Queued? && s.tasks[t].pc.since + s.deadline <= s.now
    case Finish(t) => t in s.tasks && s.tasks[t].pc.Dispatching?
    case Cancel(t) => t in s.tasks && (s.tasks[t].pc.Queued? || s.tasks[t].pc.Dispatching?)
    case Tick(_) => true
  }

  ghost function Move(s: State, t: nat, pc: Pc, free: Free): State
    requires t in s.tasks
  {
    s.(free := free, tasks := s.tasks[t := s.tasks[t].(pc := pc)])
  }

  ghost function Apply(s: State, step: Step): State
    requires Enabled(s, step)
  {
    match step
    case Arrive(t, scheme) => s.(tasks := s.tasks[t := Task(scheme, Arriving)])
    case Try(t) =>
      (match AdmitAtOnce(s.free, s.tasks[t].scheme)
       case Some((bucket, free)) => Move(s, t, Dispatching(bucket), free)
       case None => Move(s, t, Queued(s.now), s.free))
    case Grant(t) => Move(s, t, Dispatching(Browse), s.free.(browse := s.free.browse - 1))
    case Refuse(t) => Move(s, t, Refused, s.free)
    case Finish(t) => Move(s, t, Left, GiveBack(s.free, s.tasks[t].pc.bucket))
    case Cancel(t) =>
      if s.tasks[t].pc.Dispatching? then Move(s, t, Left, GiveBack(s.free, s.tasks[t].pc.bucket))
      else Move(s, t, Left, s.free)
    case Tick(d) => s.(now := s.now + d)
  }

  ghost predicate CanRun(s: State, steps: seq<Step>)
    decreases |steps|
  {
    steps == [] || (Enabled(s, steps[0]) && CanRun(Apply(s, steps[0]), steps[1..]))
  }

  ghost function After(s: State, steps: seq<Step>): State
    requires CanRun(s, steps)
    decreases |steps|
  {
    if steps == [] then s else After(Apply(s, steps[0]), steps[1..])
  }

  ghost predicate Reachable(s: State) {
    exists s0, steps :: Init(s0) && CanRun(s0, steps) && After(s0, steps) == s
  }

  /** The tasks dispatching on a permit of `bucket`. */
  ghost function Holders(s: State, bucket: Bucket): set<nat> {
    set t | t in s.tasks && s.tasks[t].pc == Dispatching(bucket)
  }

  ghost function Dispatchers(s: State): set<nat> {
    set t | t in s.tasks && s.tasks[t].pc.Dispatching?
  }

  ghost predicate Inv(s: State) {
    && |Holders(s, NowPlaying)| + s.free.nowPlaying == s.size.nowPlaying
    && |Holders(s, Browse)| + s.free.browse == s.size.browse
    && forall t :: t in s.tasks && s.tasks[t].pc == Dispatching(NowPlaying) ==> IsNowPlayingScheme(s.tasks[t].scheme)
  }

  function Permits(pc: Pc, b: Bucket): nat {
    if pc == Dispatching(b) then 1 else 0
  }

  lemma HoldersAfterMove(s: State, t: nat, pc: Pc, free: Free, b: Bucket)
    requires t in s.tasks
    ensures |Holders(Move(s, t, pc, free), b)| + Permits(s.tasks[t].pc, b) == |Holders(s, b)| + Permits(pc, b)
  {
    var s' := Move(s, t, pc, free);
    var others := Holders(s, b) - {t};
    assert Holders(s, b) == if s.tasks[t].pc == Dispatching(b) then others + {t} else others;
    assert Holders(s', b) == if pc == Dispatching(b) then others + {t} else others;
  }

  lemma MoveKeepsInv(s: State, t: nat, pc: Pc, free: Free)
    requires Inv(s) && t in s.tasks
    requires forall b :: Permits(pc, b) + FreeIn(free, b) == Permits(s.tasks[t].pc, b) + FreeIn(s.free, b)
    requires pc == Dispatching(NowPlaying) ==> IsNowPlayingScheme(s.tasks[t].scheme)
    ensures Inv(Move(s, t, pc, free))
  {
    HoldersAfterMove(s, t, pc, free, NowPlaying);
    HoldersAfterMove(s, t, pc, free, Browse);
    assert Permits(pc, NowPlaying) + FreeIn(free, NowPlaying)
        == Permits(s.tasks[t].pc, NowPlaying) + FreeIn(s.free, NowPlaying);
    assert Permits(pc, Browse) + FreeIn(free, Browse) == Permits(s.tasks[t].pc, Browse) + FreeIn(s.free, Browse);
  }

  function FreeIn(free: Free, b: Bucket): nat {
    match b case NowPlaying => free.nowPlaying case Browse => free.browse
  }

  lemma StepKeepsInv(s: State, step: Step)
    requires Inv(s) && Enabled(s, step)
    ensures Inv(Apply(s, step)) && Apply(s, step).size == s.size
  {
    var s' := Apply(s, step);
    if step.Arrive? || step.Tick? {
      assert Holders(s', NowPlaying) == Holders(s, NowPlaying) && Holders(s', Browse) == Holders(s, Browse);
    } else {
      MoveKeepsInv(s, step.task, s'.tasks[step.task].pc, s'.free);
    }
  }

  lemma {:induction false} RunKeepsInv(s: State, steps: seq<Step>)
    requires Inv(s) && CanRun(s, steps)
    ensures Inv(After(s, steps)) && After(s, steps).size == s.size
    decreases |steps|
  {
    if steps != [] {
      StepKeepsInv(s, steps[0]);
      RunKeepsInv(Apply(s, steps[0]), steps[1..]);
    }
  }

  lemma ReachableInv(s: State)
    requires Reachable(s)
    ensures Inv(s)
  {
    var s0, steps :| Init(s0) && CanRun(s0, steps) && After(s0, steps) == s;
    assert Holders(s0, NowPlaying) == {} && Holders(s0, Browse) == {};
    RunKeepsInv(s0, steps);
  }

  // ---------------------------------------------------------------------------
  // Guarantees
  // ---------------------------------------------------------------------------

  /** Permits are conserved bucket by bucket, through every grant, refusal and cancellation. */
  lemma PermitsConserved(s: State)
    requires Reachable(s)
    ensures |Holders(s, NowPlaying)| + s.free.nowPlaying == s.size.nowPlaying
    ensures |Holders(s, Browse)| + s.free.browse == s.size.browse
    ensures forall t :: t in Holders(s, NowPlaying) ==> s.tasks[t].scheme == "mpd-path"
  {
    ReachableInv(s);
  }

  /** Online dispatches in flight never exceed the two bucket sizes together. */
  lemma DispatchesBounded(s: State)
    requires Reachable(s)
    ensures |Dispatchers(s)| <= s.size.nowPlaying + s.size.browse
  {
    ReachableInv(s);
    var np, br := Holders(s, NowPlaying), Holders(s, Browse);
    forall t | t in Dispatchers(s) ensures t in np + br {
      match s.tasks[t].pc.bucket case NowPlaying => case Browse =>
    }
    SubsetCardinality(Dispatchers(s), np + br);
    assert |np + br| <= |np| + |br|;
  }

  ghost function NowPlayingDispatchers(s: State): set<nat> {
    set t | t in s.tasks && s.tasks[t].pc.Dispatching? && s.tasks[t].scheme == "mpd-path"
  }

  /**
   Browse cannot starve now-playing: however many browse callers dispatch or wait, a
   now-playing caller that finds fewer now-playing dispatches than reserved permits is
   admitted on the spot.
   */
  lemma NowPlayingIsNotStarved(s: State, t: nat)
    requires Reachable(s) && Enabled(s, Try(t)) && s.tasks[t].scheme == "mpd-path"
    requires |NowPlayingDispatchers(s)| < s.size.nowPlaying
    ensures Apply(s, Try(t)).tasks[t].pc == Dispatching(NowPlaying)
  {
    ReachableInv(s);
    SubsetCardinality(Holders(s, NowPlaying), NowPlayingDispatchers(s));
  }

  /** A step that drops a guard holding a reserved permit. */
  ghost predicate DropsReserved(s: State, step: Step) {
    && (step.Finish? || step.Cancel?)
    && step.task in s.tasks && s.tasks[step.task].pc == Dispatching(NowPlaying)
  }

  ghost predicate NoReservedDrop(s: State, steps: seq<Step>)
    requires CanRun(s, steps)
    decreases |steps|
  {
    steps == [] || (!DropsReserved(s, steps[0]) && NoReservedDrop(Apply(s, steps[0]), steps[1..]))
  }

  /** In some state of the run a reserved permit is free. */
  ghost predicate EverFree(s: State, steps: seq<Step>)
    requires CanRun(s, steps)
    decreases |steps|
  {
    s.free.nowPlaying > 0 || (steps != [] && EverFree(Apply(s, steps[0]), steps[1..]))
  }

  lemma {:induction false} ReserveFreedIff(s: State, steps: seq<Step>)
    requires CanRun(s, steps) && s.free.nowPlaying == 0
    ensures EverFree(s, steps) <==> !NoReservedDrop(s, steps)
    decreases |steps|
  {
    if steps != [] && !DropsReserved(s, steps[0]) {
      ReserveFreedIff(Apply(s, steps[0]), steps[1..]);
    }
  }

  /**
   A now-playing caller starts to wait exactly when no permit is free in either bucket. From a
   moment without a free reserved permit on, one is free at some point of a run exactly when some
   step of it drops a guard that holds one.
   */
  lemma NowPlayingWaitsOnlyWithoutReserve(s: State, t: nat, steps: seq<Step>)
    requires Reachable(s) && Enabled(s, Try(t)) && s.tasks[t].scheme == "mpd-path"
    requires CanRun(Apply(s, Try(t)), steps)
    ensures Apply(s, Try(t)).tasks[t].pc.Queued? <==> s.free == Free(0, 0)
    ensures s.free.nowPlaying == 0 ==> (EverFree(Apply(s, Try(t)), steps) <==> !NoReservedDrop(Apply(s, Try(t)), steps))
  {
    if s.free.nowPlaying == 0 {
      ReserveFreedIff(Apply(s, Try(t)), steps);
    }
  }

  /** A queued caller can step once a browse permit is free or its deadline is reached, and is refused no earlier. */
  lemma QueuedCallerIsSettled(s: State, t: nat)
    requires Reachable(s) && t in s.tasks && s.tasks[t].pc.Queued?
    ensures s.free.browse > 0 ==> Enabled(s, Grant(t))
    ensures Enabled(s, Refuse(t)) <==> s.now - s.tasks[t].pc.since >= s.deadline
    ensures Enabled(s, Cancel(t))
  {
  }

  /**
   A queued caller waits beside a free reserved permit exactly while fewer callers hold one than
   there are, and whether it is granted then depends on the browse bucket alone.
   */
  lemma QueuedBesideFreeReserveIff(s: State, t: nat)
    requires Reachable(s) && t in s.tasks && s.tasks[t].pc.Queued?
    ensures s.free.nowPlaying > 0 <==> |Holders(s, NowPlaying)| < s.size.nowPlaying
    ensures Enabled(s, Grant(t)) <==> |Holders(s, Browse)| < s.size.browse
  {
    ReachableInv(s);
  }

  /**
   The stronger reading fails: a queued now-playing caller keeps waiting on the browse
   bucket although a reserved permit has been handed back in the meantime.
   */
  lemma QueuedBesideFreeReserve() returns (s: State)
    ensures Reachable(s)
    ensures 2 in s.tasks && s.tasks[2] == Task("mpd-path", Queued(0))
    ensures s.free == Free(1, 0)
    ensures !Enabled(s, Grant(2))
  {
    var s0 := State(Free(1, 1), 5, 0, Free(1, 1), map[]);
    var s1 := Apply(s0, Arrive(0, "mpd-path"));
    var s2 := Apply(s1, Try(0));
    var s3 := Apply(s2, Arrive(1, "mpd-album"));
    var s4 := Apply(s3, Try(1));
    var s5 := Apply(s4, Arrive(2, "mpd-path"));
    var s6 := Apply(s5, Try(2));
    s := Apply(s6, Finish(0));
    var steps := RunFirst(s6, Finish(0), []);
    steps := RunFirst(s5, Try(2), steps);
    steps := RunFirst(s4, Arrive(2, "mpd-path"), steps);
    steps := RunFirst(s3, Try(1), steps);
    steps := RunFirst(s2, Arrive(1, "mpd-album"), steps);
    steps := RunFirst(s1, Try(0), steps);
    steps := RunFirst(s0, Arrive(0, "mpd-path"), steps);
    assert Init(s0);
  }

  lemma RunFirst(s: State, step: Step, steps: seq<Step>) returns (longer: seq<Step>)
    requires Enabled(s, step) && CanRun(Apply(s, step), steps)
    ensures CanRun(s, longer) && After(s, longer) == After(Apply(s, step), steps)
  {
    longer := [step] + steps;
    assert longer[1..] == steps;
  }
}
