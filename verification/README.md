# A verified model of the audio device distribution

The distribution puts artwork, a music library and an audio signal path behind one device. This
project models its hardest logic in Dafny and proves what it promises, for every input and every
run; where a promise does not hold as written, it proves exactly when it does.

**The artwork resolve pipeline.** A resolve passes a negative memo, a persistent index, a
single-flight coalescer and a two-bucket permit gate before it reaches slow providers.

- `coalescer.dfy` holds the coalescer's tables and lock regions and the object that performs them;
  `coalescer_protocol.dfy` interleaves any number of callers one lock region at a time, with
  cancellation at suspension points only; `coalescer_invariant.dfy` and `coalescer_theorems.dfy`
  prove the invariant and what follows from it.
- `admission.dfy` is the permit gate and its callers.
- `negative_cache.dfy` is the map with its queue, `negative_cache_refinement.dfy` the ordered-list cache it
  refines, `negative_cache_runs.dfy` which runs keep it one.
- `resolve_index.dfy` is the persistent index with its versions, size fallback and key framing.
- `cascade_tiers.dfy` is one run of the provider tiers, `cascade.dfy` the service that composes and
  evicts all layers, `cascade_dangling.dfy` the rows it leaves without bytes, `cascade_runs.dfy`
  many resolves at once over one negative memo, one coalescer and one index, across restarts and faults,
  and `cascade_notes.dfy` where their negative answers come from.

**Text.** `body_rewriter.dfy`, `body_rewriter_host_free.dfy` and `body_rewriter_again.dfy`
(captive-portal bodies), `xml_escape.dfy` (DLNA), `mpd_protocol.dfy` (MPD wire protocol), `album_name.dfy`,
`folder_album.dfy`, `folder_album_kept.dfy`, `album_title.dfy` and `album_editions.dfy` (disc folders and titles),
`artist_name.dfy`, `artist_credit.dfy`, `artist_joined.dfy`, `artist_display.dfy`, `artist_commas.dfy`,
`artist_contributors.dfy` and `artist_cleaning.dfy` (artist credits). `text.dfy`, `text_lemmas.dfy` and `sorted_text.dfy` are the parts of the
Rust text library they lean on.

**Library and signal path.** `library_scan.dfy`, `library_scan_theorems.dfy`, `library_scan_order.dfy` and
`library_scan_roots.dfy` (the bounded recursive search against a flat list), `audio_routing.dfy`, `audio_topology.dfy` and
`audio_topology_runs.dfy` (the topology store against the per-plugin routing registry).

Store faults are parameters of the operations (`ok`, `io`, `writeFails`); clocks are numbers that only
grow; what a provider or a tag reader answers is an input.

## Where the code and its documentation part

- One dispatch for concurrent callers is not guaranteed: the memo check and the slot check are two lock
  regions (`SecondDispatchIff`, `TwoDispatchesForConcurrentCallers`). At most one fetch per key at a time is.
- Forgetting and clearing do not reach a running fetch (`ForgottenEntryReturnsIff`, `ClearedEntryReturnsIff`).
- A wait that gave up leaves a note that is read before the index, so for five minutes it hides the picture the
  fetch then stored, although the next call is promised the fast path (`StoredPictureAnswersIff`,
  `GivenUpWaitHidesPicture`).
- Forgetting a negative entry leaves its key queued, which a later write can turn into a repeat
  (`PutKeepsQueueDistinctIff`, `PutKeepsWriteOrderIff`, `PutKeepsQueueBoundedIff`).
- Bytes are shared by hash and deleted even when removing the row failed (`ForgetLeavesDanglingRowIff`,
  `ClearAllLeavesDanglingRowIff`), and a remembered picture is not checked against its bytes
  (`RefreshThenMemoHitDanglesIff`).
- Clear-all reports distinct hashes as the number of entries removed (`ClearAllCountsRowsIff`).
- A bad request reads as an absence, and a miss without identity is memoised under any status
  (`FailureClass`, `NegativeWrittenIff`), so it can be replayed as transient (`MemoisedVerdictReplaysIff`).
- A now-playing caller that has begun to wait does not notice a reserved permit coming back
  (`QueuedBesideFreeReserveIff`, `QueuedBesideFreeReserve`).
- The library search skips hidden files as well as hidden directories (`MeetsExactlyTheLibrary`).
- Clearing a target wipes a plugin it shares with another, and a plugin dropped by a re-publish keeps its
  routing (`ClearWipesSharedIff`, `SharedPluginIsWiped`, `DroppedPluginKeepsRoutingUntilRestart`).
- Title cleaning is not idempotent (`CleanAgainIff`, `CleanAgainOfAnyIff`), and neither is the body rewriter
  (`RewriteAgainIff`).
- The key of a displayed credit can differ from the key of the credit (`DisplayKeepsKeyIff`,
  `CommaDisplayKeepsKeyIff`).
- A listed act comes back with the dirt of its tag, although the display form is promised
  (`DirtShowsOnListedActs`).
- A quoted word at the end of a command frames like an argument (`FrameIsSharedIff`).
- Two equal file roots examine, and charge, the same song twice (`SongIsMetTimes`).
- A name with a wide blank can stop the program (`StripStopsIff`, `CanonicalAlbumFolderStopsIff`,
  `CleanAlbumTitleStopsIff`).

## Model

| member | source | states |
|---|---|---|
| Coalescer.ArtworkResolveCoalescer.LookUp | crates/evo-device-audio-http/src/artwork_resolve_coalescer.rs:322-341 | one lock region on the memo: a fresh entry answers, a stale one is evicted, nothing else changes |
| Coalescer.ArtworkResolveCoalescer.Enter | crates/evo-device-audio-http/src/artwork_resolve_coalescer.rs:343-353 | one lock region on the in-flight map: join the running fetch or claim the slot with a new channel |
| Coalescer.ArtworkResolveCoalescer.Insert | crates/evo-device-audio-http/src/artwork_resolve_coalescer.rs:395-401 | the memo entry of an ended fetch lives for the memo time from then |
| Coalescer.ArtworkResolveCoalescer.Release | crates/evo-device-audio-http/src/artwork_resolve_coalescer.rs:207-222 | dropping the guard frees the slot the key has and publishes on its channel, or closes it |
| Coalescer.ArtworkResolveCoalescer.ForgetKey | crates/evo-device-audio-http/src/artwork_resolve_coalescer.rs:271-279 | only the memo entry of the key goes; slots and channels stay |
| Coalescer.ArtworkResolveCoalescer.ClearAll | crates/evo-device-audio-http/src/artwork_resolve_coalescer.rs:283-286 | only the memo is emptied |
| Coalescer.ArtworkResolveCoalescer.ResolveAlone | crates/evo-device-audio-http/src/artwork_resolve_coalescer.rs:308-411 | an undisturbed call runs the fetcher exactly when no fresh entry is there, and leaves memo, slots and channels as stated |
| CoalescerInvariant.StepKeepsInv | crates/evo-device-audio-http/src/artwork_resolve_coalescer.rs:308-424 | every step of every caller, and every forget, clear and tick, keeps the protocol invariant |
| CoalescerInvariant.ReachableInv | crates/evo-device-audio-http/src/artwork_resolve_coalescer.rs:308-424 | the invariant holds in every reachable state of any number of callers |
| CoalescerTheorems.SlotIffOneGuard | crates/evo-device-audio-http/src/artwork_resolve_coalescer.rs:201-222 | in every interleaving a key has an in-flight slot exactly while one live guard owns it, and only one does |
| CoalescerTheorems.OneDispatchPerGuard | crates/evo-device-audio-http/src/artwork_resolve_coalescer.rs:343-353 | while a fetch keeps its guard no other fetch for the key starts, over any run |
| CoalescerTheorems.TwoDispatchesForConcurrentCallers | crates/evo-device-audio-http/src/artwork_resolve_coalescer.rs:322-353 | concurrent callers can be served by two dispatches: a run in which both missed before either claimed |
| CoalescerTheorems.SecondDispatchIff | crates/evo-device-audio-http/src/artwork_resolve_coalescer.rs:322-353 | when a fetch memoises, some continuation opens another channel for the key before the entry expires or is forgotten exactly when some caller of the key has missed and not yet claimed |
| CoalescerTheorems.WaiterIsNeverLost | crates/evo-device-audio-http/src/artwork_resolve_coalescer.rs:355-386 | a waiter can step at once or has a live fetch behind the slot it waits on; past its deadline it can always step |
| CoalescerTheorems.RetriesAreBounded | crates/evo-device-audio-http/src/artwork_resolve_coalescer.rs:355-386 | retries are at most the dropped fetches of the key, and so is the number of steps a caller takes |
| CoalescerTheorems.RetryChargesNewFetch | crates/evo-device-audio-http/src/artwork_resolve_coalescer.rs:355-386 | each retry is charged to a dropped fetch that was never charged before |
| CoalescerTheorems.AnswersComeFromFetches | crates/evo-device-audio-http/src/artwork_resolve_coalescer.rs:322-411 | every answer is the outcome of a fetch run for the same key: own, subscribed to, or memoised and still fresh |
| CoalescerTheorems.FreshMemoServesEveryCaller | crates/evo-device-audio-http/src/artwork_resolve_coalescer.rs:322-341 | over any run in which an entry stays fresh and unforgotten, a caller still entering is served from it |
| CoalescerTheorems.SettledKeyIsNotFetchedAgain | crates/evo-device-audio-http/src/artwork_resolve_coalescer.rs:395-411 | the memo is written before the slot is freed, so no caller that looks the key up after that dispatches while the entry lives |
| CoalescerTheorems.ForgottenEntryReturnsIff | crates/evo-device-audio-http/src/artwork_resolve_coalescer.rs:271-279 | a forgotten entry can come back without a new fetch exactly when a fetch was running that had not yet memoised |
| CoalescerTheorems.ClearedEntryReturnsIff | crates/evo-device-audio-http/src/artwork_resolve_coalescer.rs:283-286 | after the whole memo is cleared an entry can come back without a new fetch exactly under the same condition |
| Admission.Gate.AdmitNow | crates/evo-device-audio-http/src/artwork_admission.rs:207-241 | the immediate part of an admit: a reserved permit only for now-playing, then a browse permit |
| Admission.Gate.DropGuard | crates/evo-device-audio-http/src/artwork_admission.rs:150-156 | dropping a guard hands its permit back to its own bucket |
| Admission.PermitsConserved | crates/evo-device-audio-http/src/artwork_admission.rs:207-241 | in every interleaving with cancellation held plus free permits stay constant per bucket; browse callers never hold a reserved one |
| Admission.DispatchesBounded | crates/evo-device-audio-http/src/artwork_cascade.rs:1053-1071 | online dispatches in flight never exceed the two bucket sizes together |
| Admission.NowPlayingIsNotStarved | crates/evo-device-audio-http/src/artwork_admission.rs:212-221 | a now-playing caller is admitted on the spot while fewer now-playing dispatches run than permits are reserved |
| Admission.NowPlayingWaitsOnlyWithoutReserve | crates/evo-device-audio-http/src/artwork_admission.rs:212-233 | a now-playing caller starts to wait exactly when no permit is free in either bucket; from a moment without a free reserved permit on, one is free at some point of a run exactly when some step drops a guard that holds one |
| Admission.QueuedBesideFreeReserveIff | crates/evo-device-audio-http/src/artwork_admission.rs:219-233 | a queued caller waits beside a free reserved permit exactly while fewer callers hold one than there are; its grant depends on the browse bucket alone |
| Admission.QueuedBesideFreeReserve | crates/evo-device-audio-http/src/artwork_admission.rs:219-233 | a queued now-playing caller can go on waiting although a reserved permit was handed back |
| NegativeMemo.NegativeCache.constructor | crates/evo-device-audio-http/src/artwork_negative_cache.rs:165-171 | a capacity of zero becomes one; the memo starts empty |
| NegativeMemo.NegativeCache.Lookup | crates/evo-device-audio-http/src/artwork_negative_cache.rs:178-195 | answers an unexpired entry; a stale one leaves map and queue |
| NegativeMemo.NegativeCache.PutWithTtl | crates/evo-device-audio-http/src/artwork_negative_cache.rs:229-273 | the whole new map and queue: re-queue, or prune and evict from the front, then append |
| NegativeMemo.NegativeCache.ForgetKey | crates/evo-device-audio-http/src/artwork_negative_cache.rs:281-290 | the entry goes and its key stays queued |
| NegativeMemo.NegativeCache.Clear | crates/evo-device-audio-http/src/artwork_negative_cache.rs:298-305 | map and queue are emptied |
| NegativeMemo.EvictMakesRoom | crates/evo-device-audio-http/src/artwork_negative_cache.rs:246-262 | the eviction loop ends below capacity whenever every entry is queued |
| NegativeMemo.LookupReturnsLastWrite | crates/evo-device-audio-http/src/artwork_negative_cache.rs:178-305 | in every run a lookup returns the last write of the key, unexpired and not forgotten since; the map keeps within capacity and every entry is queued |
| NegativeMemo.EvictionNeverStarves | crates/evo-device-audio-http/src/artwork_negative_cache.rs:246-262 | in every run the queue is not empty when an eviction is needed, and one pass makes room |
| NegativeMemoRuns.RefinesListCache | crates/evo-device-audio-http/src/artwork_negative_cache.rs:178-290 | in every run whose writes are clean, forgets included, the memo without its left-over queue entries is an ordered-list cache, operation by operation |
| NegativeMemoRuns.LookupsAgree | crates/evo-device-audio-http/src/artwork_negative_cache.rs:178-195 | in every such run a lookup answers what the list cache answers |
| NegativeMemoRuns.ForgetFreeIsClean | crates/evo-device-audio-http/src/artwork_negative_cache.rs:229-290 | a run that forgets nothing is clean, and its queue holds exactly the keys of the map |
| NegativeMemoRuns.PutKeepsQueueDistinctIff | crates/evo-device-audio-http/src/artwork_negative_cache.rs:236-273 | a put keeps the queue distinct exactly when its key is live, the map is full, or the key was not left queued |
| NegativeMemoRuns.PutKeepsWriteOrderIff | crates/evo-device-audio-http/src/artwork_negative_cache.rs:236-273 | a put keeps the queue in last-write order exactly under that condition |
| NegativeMemoRuns.QueueIsInWriteOrder | crates/evo-device-audio-http/src/artwork_negative_cache.rs:229-290 | in every run whose writes are clean the queue is in last-write order |
| NegativeMemoRuns.EvictionDropsLeastRecentlyWritten | crates/evo-device-audio-http/src/artwork_negative_cache.rs:246-262 | in every such run a put that evicts drops keys written before every key it keeps |
| NegativeMemoRuns.RewrittenKeyEvictedAsOld | crates/evo-device-audio-http/src/artwork_negative_cache.rs:281-290 | a key forgotten and written again is evicted as if it were old |
| NegativeMemoRuns.PutKeepsQueueBoundedIff | crates/evo-device-audio-http/src/artwork_negative_cache.rs:236-273 | a put keeps the queue within the capacity exactly when its key is live, the map is full, or the queue has room |
| NegativeMemoRuns.QueueStaysBounded | crates/evo-device-audio-http/src/artwork_negative_cache.rs:229-290 | the queue stays within the capacity in every run whose puts find that |
| NegativeMemoRuns.QueueGrowsWithoutBound | crates/evo-device-audio-http/src/artwork_negative_cache.rs:281-290 | runs of forget and put make the queue longer than any bound |
| ResolveIndex.Index.Get | crates/evo-device-audio-http/src/artwork_resolve_index.rs:125-147 | a missing, unreadable or malformed row is a miss |
| ResolveIndex.Index.Put | crates/evo-device-audio-http/src/artwork_resolve_index.rs:226-254 | a malformed hash or a fault stores nothing; otherwise the row is replaced |
| ResolveIndex.Index.ForgetKey | crates/evo-device-audio-http/src/artwork_resolve_index.rs:260-276 | says whether a row was removed, or that the store faulted |
| ResolveIndex.Index.DropAll | crates/evo-device-audio-http/src/artwork_resolve_index.rs:300-336 | rows that can be removed go, whatever fails on others; the distinct hashes of those removed and read are reported |
| ResolveIndex.Index.GetAnySize | crates/evo-device-audio-http/src/artwork_resolve_index.rs:173-218 | the requested size if stored, else the largest stored strictly larger one, never a smaller |
| ResolveIndex.BestStoredIsUnique | crates/evo-device-audio-http/src/artwork_resolve_index.rs:173-218 | at most one answer satisfies that description |
| ResolveIndex.MayServeIff | crates/evo-device-audio-http/src/artwork_resolve_index.rs:173-218 | which of the four sizes may stand in for which |
| ResolveIndex.RowReadIff | crates/evo-device-audio-http/src/artwork_resolve_index.rs:125-160 | a row is read exactly as its hash of 64 lower-case hexadecimal digits, with the version written or version 0 |
| ResolveIndex.FrameIsInjective | crates/evo-device-audio-http/src/artwork_resolve_index.rs:343-361 | keys whose scheme and size hold no unit separator never share a frame |
| ResolveIndex.FrameCollidesIff | crates/evo-device-audio-http/src/artwork_resolve_index.rs:343-361 | a key shares its frame with another exactly when one of its parts holds the separator |
| CascadeTiers.TransientClassSurvivesMemo | crates/evo-device-audio-http/src/artwork_cascade.rs:735-798 | a transient outcome is replayed from its note as the same class, never as an absence |
| CascadeTiers.NegativeWrittenIff | crates/evo-device-audio-http/src/artwork_cascade.rs:1074-1330 | one run memoises a verdict exactly when the online tier confirmed an absence, or the local tier missed with no identity; a stand-in hash is no picture |
| CascadeTiers.MemoisedVerdictReplaysIff | crates/evo-device-audio-http/src/artwork_cascade.rs:746-787 | a run that memoises read as an absence, and its note replays as one exactly when the status kept is none of the three transient ones; only a local miss without identity can keep such a status |
| CascadeTiers.FailureClass | crates/evo-device-audio-http/src/artwork_cascade.rs:1332-1351 | a failed run reads as an absence exactly when a tier replied without a picture, a stand-in being none, and was not unavailable online; never as a bad request |
| CascadeTiers.PictureAnsweredIff | crates/evo-device-audio-http/src/artwork_cascade.rs:1074-1410 | a run answers a picture exactly when the local tier has one that is not the stand-in in any case of letters, or is skipped or lets the run go on, the gate admits and the online tier has one |
| CascadeTiers.StandInIsNeverAnswered | crates/evo-device-audio-http/src/artwork_cascade.rs:1366-1410 | no run answers the stand-in hash, however its letters are written |
| CascadeTiers.SettlingReplyIsTold | crates/evo-device-audio-http/src/artwork_cascade.rs:1130-1330 | status and detail of the reply that settles a run without a picture are told in its failure, and status, detail and provider are noted as they are |
| CascadeTiers.UnansweredTierIsTold | crates/evo-device-audio-http/src/artwork_cascade.rs:1053-1245 | what is told of a tier that fails, cannot be read or is not let in |
| CascadeTiers.ClassIsTheBeginning | crates/evo-device-audio-http/src/artwork_cascade.rs:1332-1351 | the class of a failure is told by the beginning of its reason |
| CascadeTiers.ReplayTells | crates/evo-device-audio-http/src/artwork_cascade.rs:746-787 | a replayed note tells its status and detail, keeps its provider and names the memo where there was none |
| Cascade.ArtworkCascade.ForgetOneSize | crates/evo-device-audio-http/src/artwork_cascade.rs:521-597 | what each of the four layers is afterwards, and the counts of rows and blobs removed |
| Cascade.ArtworkCascade.Forget | crates/evo-device-audio-http/src/artwork_cascade.rs:312-347 | every taxonomy size, and the requested one if it is another, is forgotten; counts are exact |
| Cascade.ArtworkCascade.ForgetEverything | crates/evo-device-audio-http/src/artwork_cascade.rs:400-455 | what every layer is afterwards when some rows cannot be removed or read and some bytes not deleted; the counts reported |
| Cascade.ArtworkCascade.IndexEntryBytesPresent | crates/evo-device-audio-http/src/artwork_cascade.rs:624-681 | a row whose bytes are known to be gone is evicted and refused; a faulting probe lets it pass |
| Cascade.ArtworkCascade.ConsultIndex | crates/evo-device-audio-http/src/artwork_cascade.rs:800-903 | exact size first, then the best larger one; what each bad hit evicts |
| Cascade.ArtworkCascade.RememberPositive | crates/evo-device-audio-http/src/artwork_cascade.rs:688-729 | a picture becomes a current-version row unless the index faults or the hash is malformed |
| Cascade.ArtworkCascade.CoalesceAlone | crates/evo-device-audio-http/src/artwork_cascade.rs:905-932 | a run leaves its verdict in the negative memo and its outcome in the memo; a remembered answer changes neither |
| Cascade.ArtworkCascade.CoalesceAndRemember | crates/evo-device-audio-http/src/artwork_cascade.rs:905-1036 | whole new state behind the index stage: row on a picture, short note on a transient failure, run or remembered |
| Cascade.ArtworkCascade.Resolve | crates/evo-device-audio-http/src/artwork_cascade.rs:735-972 | the stage that answers, its answer and the whole new state; a target of which nothing is known always reaches the providers |
| Cascade.ArtworkCascade.Refresh | crates/evo-device-audio-http/src/artwork_resolve_endpoint.rs:352-359 | after a refresh with working stores any size of the target reaches the providers |
| Cascade.IndexAnswerIsSound | crates/evo-device-audio-http/src/artwork_cascade.rs:800-903 | an index answer is of the current version, has its bytes when probed, and is the requested size or the largest stored larger one |
| Cascade.UnversionedRowIsNotServed | crates/evo-device-audio-http/src/artwork_cascade.rs:818-903 | an index answer stands in a row of version 1; a row from before rows carried a version is never answered |
| Cascade.IndexLabel | crates/evo-device-audio-http/src/artwork_cascade.rs:885-900 | an index answer is labelled by the index, and by the size served when that is a larger one |
| Cascade.TransientNoteLives | crates/evo-device-audio-http/src/artwork_cascade.rs:974-1036 | the note of a transient failure expires five minutes after the run ended |
| Cascade.IndexStageOnlyForgets | crates/evo-device-audio-http/src/artwork_cascade.rs:800-903 | the index stage adds nothing to any of the four layers |
| Cascade.ForgetManyRemoves | crates/evo-device-audio-http/src/artwork_cascade.rs:312-347 | with working stores exactly the keys of the target leave the three layers; all others keep their entries |
| Cascade.ForgetManyComplete | crates/evo-device-audio-http/src/artwork_cascade.rs:312-347 | after a refresh nothing is known of the target at the size asked for, nor at small, medium, large or original |
| CascadeDangling.ForgetLeavesDanglingRowIff | crates/evo-device-audio-http/src/artwork_cascade.rs:521-597 | forgetting a target takes the bytes from under a row, its own or another target's, exactly when the row stays, a row of the target names the same bytes, and lookups and deletes work |
| CascadeDangling.SharedBytesGoIff | crates/evo-device-audio-http/src/artwork_cascade.rs:312-347 | with working stores a row of another target keeps its bytes exactly when no row of the forgotten target names them |
| CascadeDangling.RefreshThenMemoHitDanglesIff | crates/evo-device-audio-http/src/artwork_cascade.rs:905-972 | a picture still remembered after another target was refreshed is answered and indexed unchecked; its row has no bytes exactly when the refreshed target named the same ones and they could be deleted |
| CascadeDangling.ClearAllLeavesDanglingRowIff | crates/evo-device-audio-http/src/artwork_cascade.rs:400-455 | a row that outlives clear-all loses its bytes exactly when a removed row was read to name them too and they could be deleted |
| CascadeDangling.ClearAllCountsRowsIff | crates/evo-device-audio-http/src/artwork_cascade.rs:396-416 | clear-all reports as many entries as rows it removed exactly when each was read and names bytes of its own |
| CascadeRuns.StepKeepsInv | crates/evo-device-audio-http/src/artwork_cascade.rs:735-972 | every step of concurrent resolves, negative notes, evictions and restarts keeps caches in agreement with the history of runs |
| CascadeRuns.AnswersComeFromSuccessfulRuns | crates/evo-device-audio-http/src/artwork_cascade.rs:735-972 | in every interleaving an index answer is a hash a successful run produced for that scheme and value, at the size asked or a larger one; a cascade answer is of exactly that key |
| CascadeNotes.StepKeepsNotes | crates/evo-device-audio-http/src/artwork_cascade.rs:735-1036 | every step keeps every note of the negative memo, and every answer taken from one, traced to what was written |
| CascadeNotes.NegativeAnswersHaveCauses | crates/evo-device-audio-http/src/artwork_cascade.rs:746-787 | in every interleaving a negative answer is an unexpired note for exactly that key: the verdict of a run of it, the failure of a run of it, or a wait on it that lasted past its deadline |
| CascadeNotes.StoredPictureAnswersIff | crates/evo-device-audio-http/src/artwork_cascade.rs:735-903 | with working stores a resolve of a key with a current row and its bytes answers the picture unless a live note of the key is read first; then it answers the note |
| CascadeNotes.GivenUpWaitHidesPicture | crates/evo-device-audio-http/src/artwork_cascade.rs:905-972 | for every key a run in which a waiter gives up, the fetch it waited for lands and is stored, and the next resolve replays the note of the wait |
| BodyRewriter.InUrlContext | crates/evo-device-audio-http/src/captive_session_endpoint.rs:681-715 | decides the URL context of a slash from the bytes around it, told in byte values |
| BodyRewriter.RewriteBody | crates/evo-device-audio-http/src/captive_session_endpoint.rs:662-752 | the one-pass loop writes the rendering of the marked edits; in a body without the host every byte is written once and in order, behind one prefix exactly when it is a slash that opens a URL by its neighbouring byte values |
| BodyRewriter.SlashGetsPrefixIff | crates/evo-device-audio-http/src/captive_session_endpoint.rs:689-752 | where each byte of a body without the host comes to stand, and that a slash gets exactly one prefix iff it is single and stands behind 0x28 or 0x3D, or behind a quote whose own predecessor is missing or no word byte |
| BodyRewriter.UndoGivesBackInput | crates/evo-device-audio-http/src/captive_session_endpoint.rs:662-743 | undoing the marked edits gives back the input |
| BodyRewriter.ScanMatchesDeclaration | crates/evo-device-audio-http/src/captive_session_endpoint.rs:662-752 | hosts are swapped at the leftmost disjoint occurrences; elsewhere exactly the slashes that open a URL, by byte values, get one prefix; all else is copied in order |
| BodyRewriter.LeftmostMatchesUnique | crates/evo-device-audio-http/src/captive_session_endpoint.rs:668-680 | only one choice of host occurrences is leftmost |
| BodyRewriter.DoubleSlashIsLeftAlone | crates/evo-device-audio-http/src/captive_session_endpoint.rs:682-686 | neither slash of a protocol-relative reference is marked |
| BodyRewriterHostFree.RewrittenBodyIsHostFree | crates/evo-device-audio-http/src/captive_session_endpoint.rs:662-743 | when host and prefix cannot overlap no rewritten body holds the host, not even across inserted prefixes |
| BodyRewriterHostFree.HidesHostIffNoOverlap | crates/evo-device-audio-http/src/captive_session_endpoint.rs:662-743 | for hosts without context bytes that have no border or lack the first byte of the prefix, the rewriter hides the host in every body exactly then |
| BodyRewriterAgain.RewriteAgainIff | crates/evo-device-audio-http/src/captive_session_endpoint.rs:662-752 | rewriting once more changes nothing exactly when the body gets no prefix before a slash and no host is swapped where a URL opens |
| BodyRewriterAgain.EndingsMatter | crates/evo-device-audio-http/src/captive_session_endpoint.rs:681-715 | a body that meets that condition and still changes, because prefix and host end differently |
| BodyRewriterAgain.PrefixedAgain | crates/evo-device-audio-http/src/captive_session_endpoint.rs:681-743 | a body that gets the prefix a second time |
| XmlEscape.EscapeIsSinglePass | crates/evo-dlna/src/browse.rs:156-162 | the five escape passes equal one escape of each character with the predefined entities (XML 1.0, section 4.6) |
| XmlEscape.PassTakesOneBack | crates/evo-dlna/src/browse.rs:164-170 | each unescape pass takes back exactly one kind of entity |
| XmlEscape.UnescapeUndoesEscape | crates/evo-dlna/src/browse.rs:156-170 | unescape undoes escape on every string |
| MpdProtocol.EncodeArgument | crates/evo-mpd-shared/src/protocol.rs:108-128 | quoted and escaped, or refused for its first forbidden character |
| MpdProtocol.SerialiseCommand | crates/evo-mpd-shared/src/protocol.rs:82-103 | the frame, or the first forbidden character of the command or else of the first bad argument |
| MpdProtocol.FirstForbidden | crates/evo-mpd-shared/src/protocol.rs:86-90 | the first newline, carriage return or NUL, if there is one |
| MpdProtocol.ArgumentsReadBack | crates/evo-mpd-shared/src/protocol.rs:108-128 | a reader of quoted arguments gets back exactly the arguments sent |
| MpdProtocol.FramesAreUnambiguous | crates/evo-mpd-shared/src/protocol.rs:82-103 | equal frames of commands without a quote have equal command and arguments |
| MpdProtocol.QuoteInCommandIsAmbiguous | crates/evo-mpd-shared/src/protocol.rs:82-103 | a quoted word inside a command name frames like an argument |
| MpdProtocol.FrameIsSharedIff | crates/evo-mpd-shared/src/protocol.rs:82-103 | some other sending has the same frame exactly when there are arguments or the command ends in a space and a quoted word |
| MpdProtocol.FrameIsOneLine | crates/evo-mpd-shared/src/protocol.rs:82-103 | the only line break of a frame is its last character |
| MpdProtocol.AckRoundTripIff | crates/evo-mpd-shared/src/protocol.rs:195-229 | an error line reads back as sent exactly when its command holds no closing brace |
| MpdProtocol.LineKindIff | crates/evo-mpd-shared/src/protocol.rs:164-176 | which lines end a response, end one part of it, or are read as errors |
| MpdProtocol.AckReadIff | crates/evo-mpd-shared/src/protocol.rs:195-229 | an error line is understood exactly when two numbers, a command without a closing brace and a message stand in it in that form; what is read is what stands there |
| MpdProtocol.FieldRoundTripIff | crates/evo-mpd-shared/src/protocol.rs:164-191 | a field line reads back as sent exactly when its key is not empty, holds no separator and does not begin like an error line |
| LibraryScan.Scanner.Examine | crates/evo-device-audio-shared/src/lib.rs:936-947 | one file charged to the shared counter, refused once the cap is spent |
| LibraryScan.Scanner.Scan | crates/evo-device-audio-shared/src/lib.rs:913-996 | the recursive scan answers as a search of the flat depth-first list, from the counter and visited set it was given |
| LibraryScan.Scanner.ScanNames | crates/evo-device-audio-shared/src/lib.rs:958-994 | the loop over sorted names answers as a search of their part of the flat list |
| LibraryScan.FirstMatchingAudioPath | crates/evo-device-audio-shared/src/lib.rs:889-911 | all roots together answer as one search of one flat list |
| LibraryScan.SearchAppend | crates/evo-device-audio-shared/src/lib.rs:889-996 | a search of two lists in a row is a search of the first, then of the second with what is left of the cap |
| LibraryScanTheorems.FoundIff | crates/evo-device-audio-shared/src/lib.rs:913-996 | a path is answered exactly when it matches, lies within the cap, and nothing before it decides |
| LibraryScanTheorems.LimitIff | crates/evo-device-audio-shared/src/lib.rs:939-941 | the limit is reported exactly when the first hundred thousand files settle nothing and one more follows |
| LibraryScanTheorems.NoMatchIff | crates/evo-device-audio-shared/src/lib.rs:913-996 | nothing is answered exactly when no file matches, all directories are readable and all files fit the cap |
| LibraryScanTheorems.SearchAnswersItsStop | crates/evo-device-audio-shared/src/lib.rs:913-996 | the answer is what the first deciding event means |
| LibraryScanTheorems.CounterIsBounded | crates/evo-device-audio-shared/src/lib.rs:939-942 | the counter never passes the cap |
| LibraryScanTheorems.NoDirectoryIsEnteredTwice | crates/evo-device-audio-shared/src/lib.rs:954-958 | no directory is entered twice in one search, however roots overlap |
| LibraryScanTheorems.OneDirectoryTwoPaths | crates/evo-device-audio-shared/src/lib.rs:954-958 | two paths with one canonical path are one directory: behind the one, nothing is met at the other |
| LibraryScanTheorems.ListingOrderIsIrrelevant | crates/evo-device-audio-shared/src/lib.rs:959-963 | the order in which directories list their names never changes what is met |
| LibraryScanOrder.MeetsExactlyTheLibrary | crates/evo-device-audio-shared/src/lib.rs:889-996 | the search meets exactly the songs reached from a root through real, readable directories and names without a leading dot |
| LibraryScanOrder.NothingFoundMeansNothingMatches | crates/evo-device-audio-shared/src/lib.rs:889-911 | a search that finds nothing means no song of the library matches |
| LibraryScanOrder.WalkIsInOrder | crates/evo-device-audio-shared/src/lib.rs:963-994 | of two songs met, the earlier has, at the first component where they differ, the smaller character at the first difference or is its beginning |
| LibraryScanOrder.FoundIsLeast | crates/evo-device-audio-shared/src/lib.rs:868-911 | from one root the path found precedes every matching song of the library in that order |
| LibraryScanRoots.SongIsMetTimes | crates/evo-device-audio-shared/src/lib.rs:889-996 | a song is examined, and charged to the cap, once for every root that is the song itself, and once more if it is reached from some other root, however roots overlap |
| LibraryScanRoots.FoundIsLeastOfFirstRoot | crates/evo-device-audio-shared/src/lib.rs:868-911 | with several roots the path found precedes, in that order, every match of the first root from which one is reached |
| AudioRouting.AudioRoutingRuntime.HandleForPlugin | crates/evo-audio-topology/src/audio_routing.rs:137-154 | an entry is made if there is none; what was resolved and watched stays |
| AudioRouting.AudioRoutingRuntime.PublishTopology | crates/evo-audio-topology/src/audio_routing.rs:164-182 | the resolution is replaced, the callback kept; the previous resolution and the callback to fire are answered |
| AudioRouting.AudioRoutingRuntime.ClearTopology | crates/evo-audio-topology/src/audio_routing.rs:188-193 | the resolution of a known plugin goes, its callback stays |
| AudioRouting.RouterAudioRouting.WriteEndpoint | crates/evo-audio-topology/src/audio_routing.rs:305-316 | refused for delivery plugins, otherwise the resolved write endpoint or not configured |
| AudioRouting.RouterAudioRouting.ReadEndpoint | crates/evo-audio-topology/src/audio_routing.rs:318-329 | refused for source plugins, otherwise the resolved read endpoint or not configured |
| AudioRouting.RouterAudioRouting.CompositionEndpoints | crates/evo-audio-topology/src/audio_routing.rs:331-344 | both endpoints for composition plugins only |
| AudioRouting.RouterAudioRouting.CurrentFormat | crates/evo-audio-topology/src/audio_routing.rs:346-348 | the resolved format for any role |
| AudioRouting.RouterAudioRouting.OnRouteChange | crates/evo-audio-topology/src/audio_routing.rs:350-355 | the callback of a known plugin is replaced |
| AudioTopology.TopologyValidate | crates/evo-audio-topology/src/audio_topology.rs:352-410 | a fault is reported exactly when the topology is not well formed; it is true of the topology, and no fault looked for earlier is |
| AudioTopology.AudioTopologyStore.Publish | crates/evo-audio-topology/src/audio_topology.rs:120-185 | rows and registry after a publish; refused or failing writes change nothing |
| AudioTopology.AudioTopologyStore.Clear | crates/evo-audio-topology/src/audio_topology.rs:231-244 | the routing of the whole chain goes first, so a failing delete leaves the row without it |
| AudioTopology.AudioTopologyStore.Rehydrate | crates/evo-device-audio-distribution/src/main.rs:253-280 | every listed row is published again, whatever becomes of the others; a listing that fails publishes none |
| AudioTopologyRuns.StoredChainsHaveTheirForm | crates/evo-audio-topology/src/audio_topology.rs:352-393 | in every run every stored chain is a source, compositions only, a delivery |
| AudioTopologyRuns.LastStageWins | crates/evo-audio-topology/src/audio_topology.rs:146-149 | a plugin used twice keeps the routing of its last stage |
| AudioTopologyRuns.EveryStageRoutedIff | crates/evo-audio-topology/src/audio_topology.rs:146-149 | a publish gives every stage its own routing exactly when stages sharing a plugin route alike |
| AudioTopologyRuns.StoredStagesAreServedIff | crates/evo-audio-topology/src/audio_topology.rs:120-321 | in every run that keeps plugins apart a stored stage is served by its role handle, with the reason that names its target, exactly when no failed delete, listing or re-publish has left the target adrift |
| AudioTopologyRuns.LastTouchDecides | crates/evo-audio-topology/src/audio_topology.rs:120-321 | whatever targets share, in every run the routing of a plugin is what the last publish, clear or restart that touched it left, and none if nothing did |
| AudioTopologyRuns.RestartChangesNoAnswerIff | crates/evo-device-audio-distribution/src/main.rs:253-280 | a restart, in any order of rows, changes no answer to a stage of a stored target that is not adrift exactly when the rows could be listed and its row was published again |
| AudioTopologyRuns.ClearWipesSharedIff | crates/evo-audio-topology/src/audio_topology.rs:235-239 | clearing one target takes a plugin away exactly when the cleared chain uses it, whoever else does |
| AudioTopologyRuns.SharedPluginIsWiped | crates/evo-audio-topology/src/audio_topology.rs:231-244 | for any two targets sharing a plugin a run clears one and leaves the other stored and unserved, though nothing failed |
| AudioTopologyRuns.DroppedPluginKeepsRoutingUntilRestart | crates/evo-audio-topology/src/audio_topology.rs:146-149 | a plugin dropped by a re-publish keeps its routing; a restart takes it away |
| AlbumName.MarkParses | crates/evo-device-audio-shared/src/album_name.rs:184-202 | every spelling of a disc mark with one of the six labels is a disc group with the number written |
| AlbumName.DiscGroupIff | crates/evo-device-audio-shared/src/album_name.rs:184-202 | a text is a disc group exactly when its words are one of the six labels, a number, and perhaps "of" and another number |
| AlbumName.GroupHasGroupWords | crates/evo-device-audio-shared/src/album_name.rs:184-202 | a disc group holds label, number and "of" words only |
| FolderAlbum.BracketedRollsUp | crates/evo-device-audio-shared/src/album_name.rs:131-146 | a bracketed disc mark is stripped to the album name, and the name is no bare disc folder |
| FolderAlbum.DashedRollsUp | crates/evo-device-audio-shared/src/album_name.rs:148-158 | a dashed disc mark is stripped at its own dash, whatever dashes the album name holds |
| FolderAlbum.GluedRollsUp | crates/evo-device-audio-shared/src/album_name.rs:160-182 | a glued disc mark is stripped at the last space |
| FolderAlbum.StripStopsIff | crates/evo-device-audio-shared/src/album_name.rs:105-182 | stripping stops the program exactly when the last blank of the trimmed name is wider than one byte and no bracketed or dashed disc mark ends it |
| FolderAlbum.CanonicalAlbumFolderStopsIff | crates/evo-device-audio-shared/src/folder_album.rs:60-86 | keying a track stops the program exactly when its folder has such a name that is no bare disc mark |
| FolderAlbum.WideBlankFolderStopsIff | crates/evo-device-audio-shared/src/folder_album.rs:60-86 | for every parent a folder of two words parted by a wide blank stops the program unless the words are a disc mark |
| FolderAlbum.DiscFoldersRollUp | crates/evo-device-audio-shared/src/folder_album.rs:60-100 | for every parent path, album name, file and mark with one of the six labels the five spellings roll up to the key stated |
| FolderAlbumKept.ForeignLabelKeepsFolder | crates/evo-device-audio-shared/src/folder_album.rs:60-100 | for every parent path, a folder spelt in any of the five ways with a label that is none of the six is its own key |
| FolderAlbum.DiscsShareKeyIff | crates/evo-device-audio-shared/src/folder_album.rs:60-86 | two discs of an album share a key exactly when their parent is not blanks alone or both are spelt alike |
| AlbumTitle.StripTrailingEditionQualifier | crates/evo-device-audio-shared/src/album_name.rs:209-217 | the loop strips every trailing edition, whatever the wording; that of the program is `AlbumEditions.EditionWording` |
| AlbumTitle.CleanAlbumTitleStopsIff | crates/evo-device-audio-shared/src/album_name.rs:44-57 | cleaning a title stops the program exactly when stripping the trimmed title does |
| AlbumTitle.CleanAgainIff | crates/evo-device-audio-shared/src/album_name.rs:39-57 | cleaning twice differs from cleaning once exactly when, in the raw title, a disc mark with a title before it lies under the trailing editions |
| AlbumTitle.CleanAgainOfAnyIff | crates/evo-device-audio-shared/src/album_name.rs:39-57 | for every raw title, composed or not, cleaning again changes nothing exactly when the cleaned title has no disc mark and no edition to take off, or taking them off would leave nothing |
| AlbumTitle.StackedMarksNeedTwoCleanings | crates/evo-device-audio-shared/src/album_name.rs:44-57 | a disc mark in front of an edition outlives the first cleaning and falls to the second |
| AlbumEditions.EditionIsNoDiscMark | crates/evo-device-audio-shared/src/album_name.rs:184-285 | no text is both a disc mark and an edition of the vocabulary |
| AlbumEditions.DecorationsFall | crates/evo-device-audio-shared/src/album_name.rs:204-285 | bracketed groups that name an edition, by one of the wordings or as a numbered anniversary, fall in any number and any case, and nothing else falls with them |
| AlbumEditions.MarkedEditionNeedsTwoCleanings | crates/evo-device-audio-shared/src/album_name.rs:44-285 | with the vocabulary of the program, a bracketed disc mark in front of a one-word edition needs two cleanings |
| ArtistName.FoldAlnum | crates/evo-device-audio-shared/src/artist_name.rs:610-631 | the loop folds to lower-case letters and digits with single spaces |
| ArtistName.FoldedIsSpaced | crates/evo-device-audio-shared/src/artist_name.rs:610-631 | a folded text is words parted by single spaces, with none at either end |
| ArtistName.UnbracketedIsPeeled | crates/evo-device-audio-shared/src/artist_name.rs:541-570 | nothing that could be stripped is left, and what is left begins the trimmed text |
| ArtistName.StripTrailingParentheticals | crates/evo-device-audio-shared/src/artist_name.rs:544-570 | the loop strips every trailing bracketed group that nests none |
| ArtistName.SplitOnCi | crates/evo-device-audio-shared/src/artist_name.rs:424-455 | the loop cuts at the delimiter in any case, drops blank pieces, and needs two parts |
| ArtistName.SplitOnFeatFt | crates/evo-device-audio-shared/src/artist_name.rs:285-321 | the first featuring delimiter that gives two parts decides |
| ArtistContributors.SplitArtistCredit | crates/evo-device-audio-shared/src/artist_name.rs:157-277 | the recursive splitting with its seen set equals the list of contributors; a credit whose key is that of a listed act comes back whole; one joined from single names in any written way, whose key is not listed, gives one contributor for each key |
| ArtistContributors.LinkedSplits | crates/evo-device-audio-shared/src/artist_name.rs:157-321 | single names joined by semicolon, ampersand, the joining word, a comma, or any of the five ways to feature, in any case, split into exactly those names |
| ArtistContributors.NothingFeaturedIff | crates/evo-device-audio-shared/src/artist_name.rs:285-321 | nothing is featured exactly when none of the five ways gives two parts |
| ArtistName.CreditPartsAreShorter | crates/evo-device-audio-shared/src/artist_name.rs:175-194 | every part a credit splits into is non-empty and strictly shorter, so splitting ends |
| ArtistCredit.ContributorsAreNamed | crates/evo-device-audio-shared/src/artist_name.rs:157-210 | a credit with content has contributors, each with a name; a blank one has none |
| ArtistCredit.ContributorsAreDistinct | crates/evo-device-audio-shared/src/artist_name.rs:190-205 | two or more contributors have pairwise distinct, non-empty fold keys |
| ArtistCredit.EveryContributorIsRepresented | crates/evo-device-audio-shared/src/artist_name.rs:190-205 | every contributor of every part is represented by key |
| ArtistCleaning.TrailingGroupFalls | crates/evo-device-audio-shared/src/artist_name.rs:541-570 | a bracketed group at the end that nests none of its kind falls away, whatever stands before it |
| ArtistCleaning.NoTrailingGroup | crates/evo-device-audio-shared/src/artist_name.rs:541-570 | what is left ends in no such group |
| ArtistCleaning.UnevenGroupStays | crates/evo-device-audio-shared/src/artist_name.rs:541-570 | a group that closes more brackets than it opens stays, and so does everything before it |
| ArtistCleaning.DirtIsNotSeen | crates/evo-device-audio-shared/src/artist_name.rs:60-118 | a watermark, a bracketed group or a repetition behind a slash changes neither the key nor the display of a credit |
| ArtistCleaning.DirtShowsOnListedActs | crates/evo-device-audio-shared/src/artist_name.rs:157-210 | it changes no contributor either, unless the key is listed: then the single contributor keeps it |
| ArtistCleaning.SortFormIsTurned | crates/evo-device-audio-shared/src/artist_name.rs:593-608 | a last name of one word, a comma and the rest have the key and display of the name the other way round |
| ArtistCleaning.MarksAreNotSeen | crates/evo-device-audio-shared/src/artist_name.rs:610-651 | a combining mark folds to nothing wherever it stands |
| ArtistCleaning.VariousArtistsAreOne | crates/evo-device-audio-shared/src/artist_name.rs:633-645 | a name has the key and display of various artists exactly when it folds to one of the four ways to write it |
| ArtistCredit.JoinedCreditSplits | crates/evo-device-audio-shared/src/artist_name.rs:387-422 | a credit joined from trimmed parts splits into exactly those parts |
| ArtistCredit.SamePartsSameFolds | crates/evo-device-audio-shared/src/artist_name.rs:521-534 | permuting or repeating parts leaves their set of folds the same |
| ArtistCredit.SameFoldsSameKey | crates/evo-device-audio-shared/src/artist_name.rs:521-539 | parts with the same folds give the same key in any order, with any repetition, joined either way |
| ArtistCredit.SameKeyIff | crates/evo-device-audio-shared/src/artist_name.rs:521-539 | joined credits share a collaboration key exactly when their parts fold to the same set |
| ArtistDisplay.SameCreditKeyIff | crates/evo-device-audio-shared/src/artist_name.rs:60-87 | whole credits written plainly share a fold key exactly when their parts fold to the same set |
| ArtistJoined.JoinedBySplits | crates/evo-device-audio-shared/src/artist_name.rs:387-455 | a credit joined by semicolon, ampersand, the joining word in any case, or a comma after a first name of several words splits into exactly the parts joined |
| ArtistJoined.SameJoinedKeyIff | crates/evo-device-audio-shared/src/artist_name.rs:60-118 | whole credits joined by any of the four share a fold key exactly when their parts fold to the same set |
| ArtistDisplay.DisplayKeepsKeyIff | crates/evo-device-audio-shared/src/artist_name.rs:60-118 | for any number of plain names the key of the display is the key of the credit exactly when the first name has several words |
| ArtistCommas.CommaDisplayKeepsKeyIff | crates/evo-device-audio-shared/src/artist_name.rs:60-145 | for names that may hold commas, joined by any of the four, the key of the display is the key of the credit exactly when the display has several words before its first comma and no name it shows holds a comma |
| ArtistDisplay.DisplayedPairKeepsKeyIff | crates/evo-device-audio-shared/src/artist_name.rs:593-608 | so for two plain names: a first name of one word is turned round, one of several makes the comma split again |
| SortedText.SortDedupForgetsRepeats | crates/evo-device-audio-shared/src/artist_name.rs:536-537 | sorting and deduplicating forgets order and repetition |
| SortedText.SortForgetsOrder | crates/evo-device-audio-shared/src/lib.rs:962-963 | sorting forgets the order the names came in |
| SortedText.LeqIff | crates/evo-device-audio-shared/src/lib.rs:962-963 | names are ordered by their first difference, the smaller character first and a beginning before what it begins |

## Left out

- MpdProtocol: frames are sequences of characters, not of UTF-8 bytes; the welcome banner and the line length limit are not modelled.
- ResolveIndex: SHA-256 is taken as injective, so rows are keyed by scheme, value and size; sharding of files and the temporary-file rename are not modelled.
- Cascade: faults are uniform per kind of store operation within one operation; `CascadeRuns` lets every single read and write fault on its own. The plugin fan-out of the clear gestures and the notifier are not modelled.
- CascadeRuns: evictions by stale-version hits and by refreshes appear as rows, bytes and notes that may vanish at any moment; the text of a deadline is an input of the step that gives up.
- Admission: which of several waiters gets a freed browse permit is left open, so the fairness of the queue is not modelled; a closed gate does not occur because nothing closes it.
- BodyRewriterHostFree.HidesHostIffNoOverlap: not exact for hosts that hold context bytes or that both have a border and hold the first byte of the prefix; for those no overlap is proved sufficient, because the leaking body would need a context or a neighbour that the host itself supplies.
- BodyRewriterAgain.RewriteAgainIff: for prefixes of two bytes or more that open with one slash and hold no context byte, and hosts that the context tests read like the end of the prefix; a session prefix ends in an identifier and a host in a letter or a digit, and `EndingsMatter` shows the last condition is needed.
- ArtistDisplay.DisplayKeepsKeyIff: for names without delimiters, brackets and the joining word, whose folds are not empty, and displays that are composed and not taken for various artists; `CommaDisplayKeepsKeyIff` drops the commas and the choice of delimiter from that list.
- ArtistContributors.SplitArtistCredit: the last clause is for names without delimiters, brackets, joining or featuring words, composed and not taken for various artists.
- ArtistCommas.CommaDisplayKeepsKeyIff: assumes of the Unicode tables that lower-case forms hold no space or ampersand and that decomposition works on each side of a comma for itself.
- CascadeDangling.RefreshThenMemoHitDanglesIff: for targets whose stored rows are of the current version, because a stale row makes the index stage delete bytes of its own.
- LibraryScan: the library does not change during one search; the extension list and tag matching are sets given with the library; names that are not valid UTF-8 are not listed.
- AudioTopology: principals, times, scores, the announcement on the bus and the stored text form are not modelled; the row is the topology itself. The volume position is a real number.
- AudioTopologyRuns: uninstalling a plugin (`forget_plugin`) is not a step of the runs, and publishes are one after another; the out-of-process forwarder is not modelled.
- AlbumTitle: Unicode composition is a parameter, and so is the edition wording there; `AlbumEditions` gives the wording of the program. `CleanAgainIff` speaks of titles already composed; `CleanAgainOfAnyIff` of all, and assumes of composition that its results are composed wherever they are cut and that it moves no blank to an end.
- ArtistName: the Unicode tables and the list of single acts are parameters; the laws that need it assume that composition empties no text and that no lower-case form holds an ampersand.
- ArtistDisplay.SameCreditKeyIff: speaks of credits without watermark, slash and trailing brackets and with at least one part that folds to something; `ArtistCredit.SameKeyIff` does not need that.
- The HTTP surface, capability gates, JSON envelopes, base64, image decoding, tag reading, compression and sockets: plumbing over libraries that are not part of this model.
- Degenerate-tag detection, location rewriting, body decoding, MIME and locale parsing: settled by reading one branch.
- Track detail, household groups, UI packs, policies, hardware profiles and scoring weights: table lookups.
