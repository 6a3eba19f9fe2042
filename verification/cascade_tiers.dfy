/**
 One run of the provider cascade over the replies of its tiers, what it memoises as negative,
 and how its failure is classified for the caller.
 */
module CascadeTiers {
  import opened Common
  import opened ArtworkTypes
  import opened Text

  /** A plugin's reply once peeled: `hash` is its content hash field, `identity` its trimmed tags. */
  datatype Reply = Reply(hash: Option<string>, status: string, detail: string, provider: Option<string>,
                         identity: Option<(string, string)>)

  datatype Tier = DispatchFailed(error: string) | Malformed(error: string) | Replied(reply: Reply)

  /** What the admission gate says when the online tier is reached. */
  datatype Admit = Granted | DeadlineElapsed(text: string) | Closed

  /** A negative memo write: status, detail, provider. */
  datatype Negative = Negative(status: string, detail: string, provider: Option<string>)

  datatype CascadeOutcome =
    | Landed(hash: string, provider: Option<string>)
    | NotFound(provider: Option<string>, detail: string)
    | BadRequest(detail: string)
    | AdmissionDeadline(detail: string)
    | CoalescerDeadline(detail: string)
    | Transient(detail: string)

  const NOT_RESOLVED := "artwork not resolved:"
  const UNAVAILABLE := "artwork upstream unavailable:"
  const ADMISSION := "artwork resolve admission deadline"
  const PLACEHOLDER := "d41d8cd98f00b204e9800998ecf8427e"
  const PROVENANCE_NEGATIVE_CACHE := "negative_cache"

  const CLOSED_REASON := "artwork resolve" + " admission runtime closed"

  function DispatchReason(tail: string): string {
    "artwork resolve" + (" dispatch failed (" + tail)
  }

  function EnvelopeReason(tail: string): string {
    "artwork resolve" + (": malformed dispatch envelope (" + tail)
  }

  /** The reply's content hash, unless it is a known stand-in for no picture. */
  function ContentHash(r: Reply): Option<string> {
    if r.hash.Some? && Lower(r.hash.value) == PLACEHOLDER then None else r.hash
  }

  function Suffix(r: Reply): string {
    " status=" + r.status + " detail=" + r.detail
  }

  /** The online tier's verdict. Only a confirmed absence is memoised. */
  function OnlineTier(admit: Admit, online: Tier): (Outcome, Option<Negative>) {
    match admit
    case DeadlineElapsed(text) => (Failed(ADMISSION + (" elapsed on " + text)), None)
    case Closed => (Failed(CLOSED_REASON), None)
    case Granted =>
      match online
      case DispatchFailed(e) => (Failed(DispatchReason(e)), None)
      case Malformed(e) => (Failed(EnvelopeReason(e)), None)
      case Replied(r) =>
        if ContentHash(r).Some? then (Resolved(ContentHash(r).value, r.provider), None)
        else if r.status == "not_found" then
          (Failed(NOT_RESOLVED + Suffix(r)), Some(Negative(r.status, r.detail, r.provider)))
        else if r.status == "unavailable" then (Failed(UNAVAILABLE + Suffix(r)), None)
        else (Failed(NOT_RESOLVED + Suffix(r)), None)
  }

  function RunCascade(scheme: string, local: Tier, admit: Admit, online: Tier): (Outcome, Option<Negative>) {
    if scheme == "artist-mbid" then OnlineTier(admit, online)
    else
      match local
      case DispatchFailed(e) => (Failed(DispatchReason(e)), None)
      case Malformed(e) => (Failed(EnvelopeReason(e)), None)
      case Replied(r) =>
        if ContentHash(r).Some? then (Resolved(ContentHash(r).value, r.provider), None)
        else if r.status == "bad_request" then (Failed(NOT_RESOLVED + Suffix(r)), None)
        else if scheme != "artist-name" && r.identity.None? then
          (Failed(NOT_RESOLVED + Suffix(r)), Some(Negative(r.status, r.detail, r.provider)))
        else OnlineTier(admit, online)
  }

  function ClassifyFetcherError(reason: string): CascadeOutcome {
    if ADMISSION <= reason then AdmissionDeadline(reason)
    else if UNAVAILABLE <= reason then Transient(reason)
    else if NOT_RESOLVED <= reason then NotFound(None, reason)
    else Transient(reason)
  }

  /** The short-lived note written after a transient outcome. */
  function TransientNote(o: CascadeOutcome): Option<Negative> {
    match o
    case Transient(d) => Some(Negative("unavailable", d, None))
    case AdmissionDeadline(d) => Some(Negative("admission_deadline", d, None))
    case CoalescerDeadline(d) => Some(Negative("coalescer_deadline", d, None))
    case _ => None
  }

  /** What a fresh negative entry answers. */
  function ReplayNegative(n: Negative): CascadeOutcome {
    var detail := "artwork not resolved (memoised " + PROVENANCE_NEGATIVE_CACHE + "): status=" + n.status
                  + " detail=" + n.detail;
    if n.status == "unavailable" then Transient(detail)
    else if n.status == "admission_deadline" then AdmissionDeadline(detail)
    else if n.status == "coalescer_deadline" then CoalescerDeadline(detail)
    else NotFound(if n.provider.Some? then n.provider else Some(PROVENANCE_NEGATIVE_CACHE), detail)
  }

  predicate SameClass(a: CascadeOutcome, b: CascadeOutcome) {
    && (a.Transient? <==> b.Transient?)
    && (a.AdmissionDeadline? <==> b.AdmissionDeadline?)
    && (a.CoalescerDeadline? <==> b.CoalescerDeadline?)
  }

  /** A transient outcome is replayed from its note as the same class, never as an absence. */
  lemma TransientClassSurvivesMemo(o: CascadeOutcome)
    ensures TransientNote(o).Some? <==> o.Transient? || o.AdmissionDeadline? || o.CoalescerDeadline?
    ensures TransientNote(o).Some? ==> SameClass(o, ReplayNegative(TransientNote(o).value))
  {
    assert "unavailable"[0] != "admission_deadline"[0];
    assert "unavailable"[0] != "coalescer_deadline"[0];
    assert "admission_deadline"[0] != "coalescer_deadline"[0];
  }

  /** The prefixes that carry the class through the reason text exclude one another. */
  lemma PrefixesExclude(tail: string)
    ensures !(ADMISSION <= NOT_RESOLVED + tail) && !(UNAVAILABLE <= NOT_RESOLVED + tail)
    ensures !(ADMISSION <= UNAVAILABLE + tail)
    ensures !(NOT_RESOLVED <= "artwork resolve" + tail) && !(UNAVAILABLE <= "artwork resolve" + tail)
  {
    assert ADMISSION[8] != (NOT_RESOLVED + tail)[8];
    assert UNAVAILABLE[8] != (NOT_RESOLVED + tail)[8];
    assert ADMISSION[8] != (UNAVAILABLE + tail)[8];
    assert NOT_RESOLVED[8] != ("artwork resolve" + tail)[8];
    assert UNAVAILABLE[8] != ("artwork resolve" + tail)[8];
  }

  lemma TierVerdict(tail: string)
    ensures ClassifyFetcherError(NOT_RESOLVED + tail).NotFound?
    ensures ClassifyFetcherError(UNAVAILABLE + tail).Transient?
    ensures ClassifyFetcherError(ADMISSION + tail).AdmissionDeadline?
  {
    PrefixesExclude(tail);
  }

  /** A reason that leaves the admission prefix before its end is transient. */
  lemma OtherResolveReason(tail: string, i: nat)
    requires 15 <= i < |ADMISSION| && i < |"artwork resolve" + tail|
    requires ADMISSION[i] != ("artwork resolve" + tail)[i]
    ensures ClassifyFetcherError("artwork resolve" + tail).Transient?
  {
    PrefixesExclude(tail);
  }

  lemma ClosedIsTransient()
    ensures ClassifyFetcherError(CLOSED_REASON).Transient?
  {
    OtherResolveReason(" admission runtime closed", 26);
  }

  lemma DispatchIsTransient(tail: string)
    ensures ClassifyFetcherError(DispatchReason(tail)).Transient?
  {
    OtherResolveReason(" dispatch failed (" + tail, 16);
  }

  lemma EnvelopeIsTransient(tail: string)
    ensures ClassifyFetcherError(EnvelopeReason(tail)).Transient?
  {
    OtherResolveReason(": malformed dispatch envelope (" + tail, 15);
  }

  // ---------------------------------------------------------------------------
  // What a run answers
  // ---------------------------------------------------------------------------

  /** A reply whose hash is no stand-in for a missing picture, in whatever case its letters are. */
  predicate Pictures(r: Reply, hash: string, provider: Option<string>) {
    r.hash == Some(hash) && r.provider == provider && Lower(hash) != "d41d8cd98f00b204e9800998ecf8427e"
  }

  predicate PicturesNothing(r: Reply) {
    r.hash.None? || Lower(r.hash.value) == "d41d8cd98f00b204e9800998ecf8427e"
  }

  /** True when the run gets as far as asking the online tier for an answer. */
  predicate AsksOnline(scheme: string, local: Tier) {
    scheme == "artist-mbid" ||
    (local.Replied? && PicturesNothing(local.reply) && local.reply.status != "bad_request"
     && (scheme == "artist-name" || local.reply.identity.Some?))
  }

  /** The local tier answered without a picture, and there is nothing to ask online with. */
  predicate LocalOnlyMiss(scheme: string, local: Tier) {
    && scheme != "artist-mbid" && scheme != "artist-name"
    && local.Replied? && PicturesNothing(local.reply)
    && local.reply.status != "bad_request" && local.reply.identity.None?
  }

  /**
   A run answers a picture exactly when the local tier has it, or when the local tier is skipped or
   lets the run go on, the gate admits it, and the online tier has it.
   */
  lemma PictureAnsweredIff(scheme: string, local: Tier, admit: Admit, online: Tier, hash: string,
                           provider: Option<string>)
    ensures RunCascade(scheme, local, admit, online).0 == Resolved(hash, provider) <==>
              || (scheme != "artist-mbid" && local.Replied? && Pictures(local.reply, hash, provider))
              || (&& AsksOnline(scheme, local) && admit.Granted?
                  && online.Replied? && Pictures(online.reply, hash, provider))
  {
  }

  /** No run answers the stand-in, however its letters are written. */
  lemma StandInIsNeverAnswered(scheme: string, local: Tier, admit: Admit, online: Tier)
    requires RunCascade(scheme, local, admit, online).0.Resolved?
    ensures Lower(RunCascade(scheme, local, admit, online).0.hash) != "d41d8cd98f00b204e9800998ecf8427e"
  {
    var answered := RunCascade(scheme, local, admit, online).0;
    PictureAnsweredIff(scheme, local, admit, online, answered.hash, answered.provider);
  }

  /** The reply that settles a run without a picture. */
  predicate SettlesLocally(scheme: string, local: Tier) {
    && scheme != "artist-mbid" && local.Replied? && PicturesNothing(local.reply)
    && (local.reply.status == "bad_request" || LocalOnlyMiss(scheme, local))
  }

  predicate SettlesOnline(scheme: string, local: Tier, admit: Admit, online: Tier) {
    AsksOnline(scheme, local) && admit.Granted? && online.Replied? && PicturesNothing(online.reply)
  }

  function Told(head: string, r: Reply): string {
    head + (" status=" + r.status + " detail=" + r.detail)
  }

  /** The settling reply is told in the failure, and noted as it is when it is noted. */
  lemma SettlingReplyIsTold(scheme: string, local: Tier, admit: Admit, online: Tier)
    requires SettlesLocally(scheme, local) || SettlesOnline(scheme, local, admit, online)
    ensures var (outcome, note) := RunCascade(scheme, local, admit, online);
            var asked := !SettlesLocally(scheme, local);
            var r := if asked then online.reply else local.reply;
            var unavailable := asked && r.status == "unavailable";
            && outcome
               == Failed(Told(if unavailable then "artwork upstream unavailable:" else "artwork not resolved:", r))
            && (note.Some? ==> note.value == Negative(r.status, r.detail, r.provider))
  {
    assert "not_found"[0] != "unavailable"[0];
  }

  /** What is told of a tier that fails, cannot be read, or is not let in. */
  lemma UnansweredTierIsTold(scheme: string, local: Tier, admit: Admit, online: Tier)
    ensures var outcome := RunCascade(scheme, local, admit, online).0;
            if AsksOnline(scheme, local) then
              && (admit.DeadlineElapsed? ==>
                    outcome == Failed("artwork resolve admission deadline" + (" elapsed on " + admit.text)))
              && (admit.Closed? ==> outcome == Failed("artwork resolve" + " admission runtime closed"))
              && (admit.Granted? && !online.Replied? ==> outcome == Failed("artwork resolve" + Complaint(online)))
            else
              !local.Replied? ==> outcome == Failed("artwork resolve" + Complaint(local))
  {
  }

  function Complaint(t: Tier): string
    requires !t.Replied?
  {
    match t
    case DispatchFailed(e) => " dispatch failed (" + e
    case Malformed(e) => ": malformed dispatch envelope (" + e
  }

  /** The class of a failure is told by how its reason begins. */
  lemma ClassIsTheBeginning(reason: string)
    ensures var verdict := ClassifyFetcherError(reason);
            && (verdict.AdmissionDeadline? <==> "artwork resolve admission deadline" <= reason)
            && (verdict.NotFound? <==> "artwork not resolved:" <= reason)
            && (verdict.Transient? <==>
                  !("artwork resolve admission deadline" <= reason) && !("artwork not resolved:" <= reason))
  {
    var other := "artwork not resolved:";
    if other <= reason { assert reason[8] == other[8] && ADMISSION[8] != other[8] && UNAVAILABLE[8] != other[8]; }
  }

  /** A replayed note keeps the provider that was noted and names the memo when there was none. */
  lemma ReplayTells(n: Negative)
    ensures var replay := ReplayNegative(n);
            var detail := "artwork not resolved (memoised " + "negative_cache" + "): status=" + n.status
                          + " detail=" + n.detail;
            && replay.detail == detail
            && (replay.NotFound? ==>
                  replay.provider == Some(if n.provider.Some? then n.provider.value else "negative_cache"))
  {
  }

  /**
   A run memoises a verdict exactly when the online tier confirmed an absence, or when the
   local tier missed with no identity to ask online with; then whatever status it gave is kept.
   */
  lemma NegativeWrittenIff(scheme: string, local: Tier, admit: Admit, online: Tier)
    ensures RunCascade(scheme, local, admit, online).1.Some? <==>
              LocalOnlyMiss(scheme, local) ||
              (&& AsksOnline(scheme, local) && admit.Granted? && online.Replied?
               && PicturesNothing(online.reply) && online.reply.status == "not_found")
    ensures RunCascade(scheme, local, admit, online).1.Some? && !LocalOnlyMiss(scheme, local) ==>
              ReplayNegative(RunCascade(scheme, local, admit, online).1.value).NotFound?
  {
    assert "not_found"[0] != "unavailable"[0];
    assert "not_found"[0] != "admission_deadline"[0];
    assert "not_found"[0] != "coalescer_deadline"[0];
  }

  /** The statuses under which a note is replayed as a transient failure. */
  predicate IsTransientStatus(status: string) {
    status == "unavailable" || status == "admission_deadline" || status == "coalescer_deadline"
  }

  /**
   A run that memoises its verdict read as an absence; the replay reads as one too exactly when the
   status kept is none of the transient ones, and only a local miss can have kept such a status.
   */
  lemma MemoisedVerdictReplaysIff(scheme: string, local: Tier, admit: Admit, online: Tier)
    requires RunCascade(scheme, local, admit, online).1.Some?
    ensures var (outcome, note) := RunCascade(scheme, local, admit, online);
            && outcome.Failed? && ClassifyFetcherError(outcome.reason).NotFound?
            && (ReplayNegative(note.value).NotFound? <==> !IsTransientStatus(note.value.status))
            && (IsTransientStatus(note.value.status) ==> LocalOnlyMiss(scheme, local))
  {
    assert "not_found"[0] != "unavailable"[0];
    assert "not_found"[0] != "admission_deadline"[0];
    assert "not_found"[0] != "coalescer_deadline"[0];
    if LocalOnlyMiss(scheme, local) {
      TierVerdict(Suffix(local.reply));
    } else {
      TierVerdict(Suffix(online.reply));
    }
  }

  /**
   A failed run reads as an absence exactly when some tier replied without a picture and did
   not say `unavailable` at the online tier; `bad_request` therefore reads as an absence too.
   */
  lemma FailureClass(scheme: string, local: Tier, admit: Admit, online: Tier)
    requires RunCascade(scheme, local, admit, online).0.Failed?
    ensures var verdict := ClassifyFetcherError(RunCascade(scheme, local, admit, online).0.reason);
            && !verdict.BadRequest?
            && (verdict.NotFound? <==>
                  if AsksOnline(scheme, local) then
                    admit.Granted? && online.Replied? && online.reply.status != "unavailable"
                  else local.Replied?)
            && (verdict.AdmissionDeadline? <==> AsksOnline(scheme, local) && admit.DeadlineElapsed?)
  {
    if AsksOnline(scheme, local) {
      OnlineFailureClass(admit, online);
    } else {
      match local {
        case DispatchFailed(e) => DispatchIsTransient(e);
        case Malformed(e) => EnvelopeIsTransient(e);
        case Replied(r) => TierVerdict(Suffix(r));
      }
    }
  }

  lemma OnlineFailureClass(admit: Admit, online: Tier)
    requires OnlineTier(admit, online).0.Failed?
    ensures var verdict := ClassifyFetcherError(OnlineTier(admit, online).0.reason);
            && !verdict.BadRequest?
            && (verdict.NotFound? <==> admit.Granted? && online.Replied? && online.reply.status != "unavailable")
            && (verdict.AdmissionDeadline? <==> admit.DeadlineElapsed?)
  {
    assert "not_found"[0] != "unavailable"[0];
    match admit {
      case DeadlineElapsed(text) => TierVerdict(" elapsed on " + text);
      case Closed => ClosedIsTransient();
      case Granted =>
        match online {
          case DispatchFailed(e) => DispatchIsTransient(e);
          case Malformed(e) => EnvelopeIsTransient(e);
          case Replied(r) => TierVerdict(Suffix(r));
        }
    }
  }
}
