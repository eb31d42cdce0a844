# ALE, verified

ALE runs agents in sandboxes. This project models the parts of it that are small machines with hard
guarantees, and proves the guarantees in Dafny 4.11. `dafny verify dfyconfig.toml` checks everything.

**Model gateway.** Many request handlers share one agent session: a replay cache, coalescing of identical
requests in flight, reservations against limits, upstream calls, commits and a trace. `Session.dfy` has the
session as functions on its state and as a class whose methods are proved to perform exactly these
functions; `Gateway.dfy` has the handlers as a step relation over the same functions, whose steps are the
stretches between two suspensions; `GatewayAccounting.dfy`, `GatewayReplay.dfy` and `GatewayDelivery.dfy`
prove what every reachable state keeps and where runs end; `GatewayKeeping.dfy` tells from the actions of a
run what is kept for retries, asked for again and charged, and `GatewayTrace.dfy` what the trace records.
`GatewayPump.dfy` is the reading of a streamed answer by a task, a queue and waits that time out, and
`GatewayStream.dfy` its relay to the client.

**Sandboxes and episodes.** `Lease.dfy` is the lease of an episode's sandboxes under any failures of
destroying, retaining and snapshotting; `Episode.dfy` is the end of an episode and the loop that repeats one
the platform failed.

**Trees and artifacts.** `TreeDigest.dfy` proves that the stream fed to the tree hash identifies the tree.
`TreeBody.dfy` and `TreeWalk.dfy` are the framed upload of a tree over a disk that may fail. `GuestCall.dfy`
is one guest operation with acknowledged output. `ArtifactGlob.dfy` says what an artifact declaration
selects, `ArtifactWalk.dfy` proves the walk against it and `ArtifactPrefix.dfy` that it may start at the
literal prefix. `ArtifactRestore.dfy` is the restoring of a capture into a file system that may hold links,
`ArtifactPlaces.dfy` where captured paths lead through links, `ArtifactStanding.dfy` what stands at those
places in the end, `ArtifactReadBack.dfy` what can be read back by following the paths, and
`ArtifactCapture.dfy` the loops and commands, each of which may fail.

**Records and configuration.** `Jsonl.dfy` is the record writer and reader, `ConfigMerge.dfy` the layered
configuration, `Ledger.dfy` and `LedgerRecovery.dfy` the run ledger with crashes at any point, and
`LedgerCompletion.dfy` that a run can always be completed.

**Drivers.** `Subscription.dfy` is the token refresh under its two locks and `SubscriptionOutcome.dfy` what
a call reports and leaves in its credential, `Stepwise.dfy` the stepwise environment with its rollout and
trajectory, `Judge.dfy` and `AgentJudge.dfy` the two Judges' retry loops, `Assets.dfy` the replacement of
asset directories, `Gpu.dfy` GPU names and leases.

`Wrappers.dfy`, `Bytes.dfy` and `Names.dfy` hold what several models share.

Concurrency is modelled as runs: sequences of enabled actions from a start state. Time, randomness, disks,
providers, guests, JSON, UTF-8, SHA-256 and `fnmatch` are parameters; where something is asked of them (an
encoded line has no raw newline and is read back) a predicate called `Lawful` says what.

Four properties that one might expect do not hold of the code, and the project says when they do:

- A coalesced request is not always given what the call it waits for ended with. Waiters await one shared
  future without a shield, so cancelling one of them cancels it for all
  (`GatewayDelivery.CancelledWaiterTakesTheOthers`), and cancelling the handler that forwards the call
  leaves its key in flight for good (`GatewayDelivery.CancelledOwnerStrandsItsRetry`). A waiter can be given
  its owner's response or exception if and only if its future is neither cancelled nor left hanging, and
  otherwise no continuation gives it anything (`GatewayDelivery.DeliveryIffNotDoomed`); if nobody else is
  cancelled it has it wherever the handlers end up, under the same condition
  (`GatewayDelivery.EveryEndDeliversIff`). A key whose owner was cancelled is dead: no request that waits
  for it or arrives later is answered (`GatewayDelivery.DeadKeyAnswersNobody`). Without cancellations
  everybody is answered (`GatewayDelivery.EverybodyIsAnswered`).
- Restoring a capture does not always leave the capture: with a link above a captured path in the
  destination, two files can be written to one place (`ArtifactRestore.LinkLosesAFile`). What is spelled and
  what is read are told apart here. The captured paths, as they are spelled and without following links,
  hold exactly the capture if and only if no link lies above an outermost one
  (`ArtifactRestore.ExactIffRootsArePlain`). Following them through links is another matter. Where none of
  the places that the outermost paths lead to lies within another, and no link on the way to one lies in
  any, a capture without gaps is read back exactly if and only if outermost paths that lead to one place
  have captured the same (`ArtifactReadBack.ReadsBackIffPlacesAgree`). So it is, gaps or not, if the places
  are all different (`ArtifactReadBack.RestoreReadsBack`), which covers harmless links
  (`ArtifactReadBack.HarmlessLink`); and two files that lead to one place are read back if and only if they
  are alike (`ArtifactReadBack.ContentsDecideInOnePlace`), so no condition on the destination and the
  captured paths alone is exact.
- Replacing assets does not always roll back: when a directory cannot be renamed to its backup, it and those
  after it are deleted (`Assets.RenameFailureLosesFolders`). A failure restores every destination if and only
  if no rename to a backup failed and every backup could be renamed back (`Assets.FailureRestoresIff`); it loses
  no directory for good if and only if no rename to a backup failed or the rollback stopped before reaching it
  (`Assets.FailureKeepsAllIff`).
- Merging configuration layers is not associative (`ConfigMerge.MergeIsNotAssociative`);
  `ConfigMerge.MergeIsAssociativeIff` gives the exact condition, and layers that agree on what is a section or
  an additive list meet it.

`envs.py` describes a step past the ceiling as refused; the code dispatches it and reports the episode as
truncated, and so does the model. That driving ends is therefore proved of `StepwisePolicy.rollout`.

## Model

| member | source | states |
|---|---|---|
| Session.AdmissionIffWithinLimits | packages/ale-run/src/ale/run/gateway/session.py:155-173 | a reservation is granted exactly when every ceiling leaves room, counting calls that are still out |
| Session.GatewaySession.Reserve | packages/ale-run/src/ale/run/gateway/session.py:155-173 | reserving refuses with the first ceiling reached and changes nothing, or takes one call of room |
| Session.GatewaySession.Commit | packages/ale-run/src/ale/run/gateway/session.py:175-186 | a commit gives its reservation back, charges the call and its tokens, and numbers the call |
| Session.GatewaySession.Begin | packages/ale-run/src/ale/run/gateway/session.py:203-206 | beginning a call puts its key in flight with a pending future and changes nothing else |
| Session.GatewaySession.Finish | packages/ale-run/src/ale/run/gateway/session.py:208-229 | finishing takes the key out of flight, caches only replayable answers, and settles the future unless it was settled or cancelled |
| GatewayAccounting.ReservationsAreSettledOnce | packages/ale-run/src/ale/run/gateway/server.py:326-416 | over every interleaving the reserved calls are the handlers between reserve and commit, forwarded calls are those plus the counted ones, and the call ceiling is never exceeded |
| GatewayAccounting.CountersAgreeWithTrace | packages/ale-run/src/ale/run/gateway/server.py:530-578 | while the session is open each counter is at most the sum over the trace, and equal to it once nothing is held; model calls are the records not refused or replayed |
| GatewayAccounting.StepUsesUpRoom | packages/ale-run/src/ale/run/gateway/session.py:155-186 | no step gives room back: counted plus reserved calls and the token counters never decrease |
| GatewayAccounting.RefusalIsFinal | packages/ale-run/src/ale/run/gateway/server.py:326-352 | after one refusal nothing is ever forwarded again, and the first refusal stays the one remembered |
| GatewayAccounting.CachedRefusalStillHolds | packages/ale-run/src/ale/run/gateway/server.py:326-352 | a cached refusal never hides a call that would now be allowed |
| GatewayAccounting.OvershootIsBounded | packages/ale-run/src/ale/run/gateway/session.py:155-186 | tokens plus the most each outstanding call may cost stay within the ceiling and one full round of concurrent calls, and nothing is admitted once the ceiling is reached |
| GatewayAccounting.StartOvershootsNothing | packages/ale-run/src/ale/run/gateway/session.py:103-138 | a new session satisfies the overshoot bound |
| GatewayAccounting.StepKeepsAccounts | packages/ale-run/src/ale/run/gateway/server.py:326-416 | every step keeps the accounting invariant |
| GatewayAccounting.RunKeepsAccounts | packages/ale-run/src/ale/run/gateway/server.py:326-416 | so does every run |
| GatewayReplay.OneCallPerKey | packages/ale-run/src/ale/run/gateway/server.py:278-309 | at most one handler works on a key, no key is both cached and in flight, and a worked-on key is not cached |
| GatewayReplay.AnswersAreGenuine | packages/ale-run/src/ale/run/gateway/server.py:278-309 | a replayed or coalesced answer is, unchanged, the answer of one call for the same request, and a coalesced exception the one that call raised |
| GatewayReplay.CachedKeyIsNeverForwardedAgain | packages/ale-run/src/ale/run/gateway/session.py:194-229 | once an answer is cached it stays, and its request is never forwarded again |
| GatewayReplay.StepKeepsCoherence | packages/ale-run/src/ale/run/gateway/server.py:278-309 | every step, cancellations included, keeps cache, keys in flight, futures and handlers in agreement |
| GatewayReplay.RunKeepsCoherence | packages/ale-run/src/ale/run/gateway/server.py:278-309 | so does every run |
| GatewayKeeping.OnlyWholeSuccessesAreKept | packages/ale-run/src/ale/run/gateway/server.py:398 | in every reachable state whatever is cached is the gateway's own refusal, or a reply of the run with a status from 200 to 299 that, if streamed, was complete |
| GatewayKeeping.WholeSuccessesAreKept | packages/ale-run/src/ale/run/gateway/server.py:480-493 | an answered call's answer is cached if and only if it is a refusal or such a reply |
| GatewayKeeping.FailuresAreAskedAgain | packages/ale-run/src/ale/run/gateway/server.py:838-844 | once a call ended that the provider did not answer with a whole success, its key is neither cached nor in flight, and the next request for it is forwarded; only a cancelled owner leaves its key in flight |
| GatewayKeeping.OnlySuccessCosts | packages/ale-run/src/ale/run/gateway/server.py:530-578 | a commit charges, and the record of the call tells, the tokens of a reply with status 200 and nothing for any other call |
| GatewayKeeping.ErrorsAreTheProviders | packages/ale-run/src/ale/run/gateway/server.py:302-311 | a call raises what its own exchange with the provider raised |
| GatewayKeeping.JudgesSampleAgain | packages/ale-run/src/ale/run/gateway/server.py:278-290 | in a Judge's session no call is replayed, coalesced or made to wait for another |
| GatewayTrace.EveryAnswerIsRecorded | packages/ale-run/src/ale/run/gateway/server.py:283-297 | while the session is open, replays, coalesced answers and refusals have their one record each, with the call, the key and the kind |
| GatewayTrace.NothingIsRecordedAfterClosing | packages/ale-run/src/ale/run/gateway/server.py:168-170 | once the session is closed the trace stays as it was |
| GatewayDelivery.RunsAreBounded | packages/ale-run/src/ale/run/gateway/server.py:263-311 | handlers left to themselves take only so many steps |
| GatewayDelivery.SomebodyCanMove | packages/ale-run/src/ale/run/gateway/server.py:263-311 | a handler that is not done, and does not wait for an abandoned call, leaves somebody able to move |
| GatewayDelivery.StrandedForever | packages/ale-run/src/ale/run/gateway/server.py:302-311 | a request that waits for an abandoned call stays stranded, whatever else arrives |
| GatewayDelivery.DeliveryIffNotDoomed | packages/ale-run/src/ale/run/gateway/server.py:278-311 | in every reachable state a waiter can be driven, cancelling nothing, to its owner's own response or exception if and only if its future is neither cancelled nor left hanging; otherwise no continuation at all gives it anything |
| GatewayDelivery.EveryEndDeliversIff | packages/ale-run/src/ale/run/gateway/server.py:278-311 | in every continuation in which nobody else is cancelled and that ends where no handler can move, a waiter has its owner's own response or exception if and only if its future was neither cancelled nor left hanging, whoever was cancelled before |
| GatewayDelivery.WhereRunsEnd | packages/ale-run/src/ale/run/gateway/server.py:263-311 | where no handler can move, every handler has an answer or exception, its own or that of the call it names, or was cancelled or lost its future, or is stranded |
| GatewayDelivery.EverybodyIsAnswered | packages/ale-run/src/ale/run/gateway/server.py:263-311 | without cancellations no handler ever ends with nothing or is stranded, and where none can move every one has an answer or exception |
| GatewayDelivery.CancelledWaiterTakesTheOthers | packages/ale-run/src/ale/run/gateway/server.py:291 | a concrete run in which cancelling one waiter leaves another, whose owner goes on, without an answer for good |
| GatewayDelivery.DeadKeyAnswersNobody | packages/ale-run/src/ale/run/gateway/server.py:278-311 | once its owner was cancelled, no request for the key that waits for it or arrives later is answered, whatever happens |
| GatewayDelivery.NothingStrandedWithoutCancellation | packages/ale-run/src/ale/run/gateway/server.py:302-311 | without a cancelled owner no call is ever abandoned |
| GatewayDelivery.CancelledOwnerStrandsItsRetry | packages/ale-run/src/ale/run/gateway/server.py:302-311 | a concrete run in which the retry of a cancelled request hangs |
| GatewayPump.ChunksThenTheEnd | packages/ale-run/src/ale/run/gateway/server.py:793-835 | over every interleaving of reads, waits and time-outs, a woken wait that times out included, what was yielded and what is queued are the chunks read, in order; the consumer ends or raises only after all of them and as the provider did; without keep-alives no silence is reported |
| GatewayPump.ConsumerCanFinish | packages/ale-run/src/ale/run/gateway/server.py:793-835 | from every state of a run the consumer can get all chunks and then the end or the exception; nothing gets stuck |
| GatewayPump.TimeoutLosesNothing | packages/ale-run/src/ale/run/gateway/server.py:793-835 | any wait may time out, also a woken one; then a silence is yielded and what was queued stays |
| GatewayPump.StepKeepsAccounts | packages/ale-run/src/ale/run/gateway/server.py:793-835 | every step keeps the queue exactly what was read and not yet yielded, followed by how the provider ended |
| GatewayStream.Relay | packages/ale-run/src/ale/run/gateway/server.py:440-464 | the recorded chunks are those yielded whatever happens downstream, a provider failure is raised instead, exactly what precedes the first lost write was sent, and the client is told the end only if nothing was lost |
| GatewayStream.ClientGetsAPrefix | packages/ale-run/src/ale/run/gateway/server.py:440-464 | over every run of the reading the client gets a prefix of the provider's chunks, all of them while connected, and no heartbeat where no silence is reported |
| GuestCall.Call | packages/ale-run/src/ale/run/transport.py:221-279 | every event before the end is acknowledged once, in order, even after a callback failed; a wrong output number ends the call unacknowledged; the callback is not used after it failed |
| Lease.Lease.constructor | packages/ale-run/src/ale/run/episode.py:161-179 | a new lease holds nothing and is sound |
| Lease.Lease.Acquire | packages/ale-run/src/ale/run/episode.py:181-219 | an acquired or adopted sandbox is live with the policy of its role, and counted as leased; a failing creation leases nothing |
| Lease.Lease.MarkSanitized | packages/ale-run/src/ale/run/episode.py:232-238 | sanitation is recorded for the named sandbox alone |
| Lease.Lease.Release | packages/ale-run/src/ale/run/episode.py:221-230 | releasing destroys a live sandbox, records its outcome whether or not destroying raises, and leaves it not live |
| Lease.PolicyIsAskedFor | packages/ale-run/src/ale/run/episode.py:202-219 | a sandbox of one role has the policy of that role; a shared one is destroyed only if both sides want it, and otherwise the solver is heard first |
| Lease.Lease.Finalize | packages/ale-run/src/ale/run/episode.py:240-272 | finalization decides live sandboxes in order up to the first failure, keeps only sanitized ones that asked for it, and records one outcome each |
| Lease.Lease.ReleaseAll | packages/ale-run/src/ale/run/episode.py:341-349 | afterwards nothing is live, every remaining sandbox has an outcome, and a failure is reported exactly when a destroy raised |
| Lease.Lease.DestroyRetained | packages/ale-run/src/ale/run/episode.py:274-307 | every kept sandbox or snapshot is undone, its outcome replaced by a destroyed one, the other outcomes unchanged, and a failure reported exactly when an undo raised |
| Episode.CloseSandboxes | packages/ale-run/src/ale/run/episode.py:699-740 | nothing is live, outcomes are appended in order, and what is kept was allowed, sanitized and asked for |
| Episode.EverySandboxSettles | packages/ale-run/src/ale/run/episode.py:240-272 | every live sandbox gets its outcome in order; it is kept, in the way asked for, if and only if keeping was allowed, asked for and safe, did not raise, and finalization got to it |
| Episode.FinishEpisode | packages/ale-run/src/ale/run/episode.py:699-840 | each leased sandbox has exactly one recorded outcome; nothing is kept after a timeout, nor after a failure when failed sandboxes are to be destroyed; the record tells the verdict unless undoing failed, else the recording, else, for a completed verdict, the first sandbox that could not be destroyed, each as an environment error of its phase |
| Episode.WhatIsKept | packages/ale-run/src/ale/run/episode.py:240-272 | a kept outcome belongs to a sanitized live sandbox whose policy asked for it, and exists only if keeping was allowed |
| Episode.MeasuredResultsStand | packages/ale-run/src/ale/run/episode.py:80-86 | a score, a limit or a refusal that was recorded, and after which nothing failed, is recorded as it is and not repeated |
| Episode.VerificationFailuresStand | packages/ale-run/src/ale/run/episode.py:111-140 | a result stands exactly if it is a score, a limit or a refusal, or verification itself failed in one of five ways |
| Episode.RunWithRetries | packages/ale-run/src/ale/run/episode.py:111-148 | attempts are archived in order while their failure is the platform's or the agent's own error, never a score, a limit or a refusal; the result is the first that stands, or the last allowed |
| TreeDigest.StreamRoundTrips | packages/ale-run/src/ale/run/content.py:21-57 | the byte stream of any tree with lengths below 2^64 decodes to that tree |
| TreeDigest.StreamIdentifiesTree | packages/ale-run/src/ale/run/content.py:21-57 | two lists of links and files with flattened paths have the same stream if and only if they are equal |
| TreeDigest.DigestTellsTreesApart | packages/ale-run/src/ale/run/content.py:14-52 | two trees without problems feed the hash the same if and only if, excluded paths apart, they hold the same links and files under the same names, each with its flag and content or target |
| TreeDigest.FeedingFailsIff | packages/ale-run/src/ale/run/content.py:25-52 | the digest raises if and only if something not excluded is a link that leads out, a special file or a file that changed |
| TreeDigest.PathsReadBack | packages/ale-run/src/ale/run/content.py:25-32 | the text of a path tells its names |
| TreeDigest.Digest | packages/ale-run/src/ale/run/content.py:14-52 | the digest raises for the first escaping link, special file or file that changed, and otherwise feeds the encoding of everything visible, in order |
| TreeDigest.Feed | packages/ale-run/src/ale/run/content.py:25-51 | one path is fed as its encoding or raises its problem |
| TreeDigest.ReadBlocks | packages/ale-run/src/ale/run/content.py:43-50 | reading in blocks counts and yields every byte |
| TreeBody.Body | packages/ale-run/src/ale/run/transport.py:476-523 | the concatenated blocks are the encoded frames of the plan, whatever the buffer limit and the reads |
| TreeBody.SendFile | packages/ale-run/src/ale/run/transport.py:483-510 | a file's frame holds what could be read, padded with zeros to its announced size, and is marked failed exactly when reading fell short |
| TreeBody.ContentIsPadded | packages/ale-run/src/ale/run/transport.py:492-503 | a frame's content is what was read, byte for byte, and zeros after it |
| TreeBody.UploadReadsBack | packages/ale-run/src/ale/run/transport.py:476-543 | for every tree, every schedule of short reads and failures, the body reads back as whole frames ended by exactly one end or abort |
| TreeBody.FramesRoundTrip | packages/ale-run/src/ale/run/transport.py:476-543 | a good body of frames reads back as itself |
| TreeBody.PlanIsGood | packages/ale-run/src/ale/run/transport.py:476-523 | frames have exactly their announced size, only the last one ends the body, and it aborts exactly when something failed |
| TreeBody.WholeFilesAreCopied | packages/ale-run/src/ale/run/transport.py:483-510 | a file that reads well is sent as it is on disk, whatever the block size and short reads |
| TreeBody.FaultlessPlanIsTheTree | packages/ale-run/src/ale/run/transport.py:476-533 | with no failure the frames are the entries of the tree, in order, then an end |
| TreeWalk.WalkIsExact | packages/ale-run/src/ale/run/transport.py:525-533 | the listing holds exactly the nodes of the tree, each with its path |
| TreeWalk.WalkIsOrdered | packages/ale-run/src/ale/run/transport.py:525-533 | parents come before what they hold, siblings by name |
| Names.PathsReadBack | packages/ale-run/src/ale/run/transport.py:525-533 | the text of a path tells its names |
| Names.AtMostIff | packages/ale-run/src/ale/run/transport.py:525-528 | names are ordered by their first difference, a name before its continuations |
| TreeWalk.Upload | packages/ale-run/src/ale/run/transport.py:463-533 | the bytes sent for a tree read back, if nothing failed, as exactly its nodes, each once, in order, whole and under its own names, and an end; otherwise as whole frames up to an abort |
| TreeWalk.FaultlessUploadIsTheTree | packages/ale-run/src/ale/run/transport.py:463-533 | the encoded frames of a tree without local failures read back as that tree |
| ArtifactGlob.ExcludedIff | packages/ale-run/src/ale/run/artifact_files.py:107-110 | a path is excluded exactly if a pattern matches it whole or from one of its names on |
| ArtifactGlob.StarsStep | packages/ale-run/src/ale/run/artifact_files.py:62-71 | `**` takes no name, at a directory only, or one more that is not hidden |
| ArtifactGlob.SelectsUnfolds | packages/ale-run/src/ale/run/artifact_files.py:45-71 | what a pattern selects below a node is the node itself or selected through a child |
| ArtifactGlob.BetweenIsSelected | packages/ale-run/src/ale/run/artifact_files.py:29-73 | what lies between two paths that a declaration selects is selected, so one declaration leaves no gaps |
| ArtifactGlob.SelectsFolds | packages/ale-run/src/ale/run/artifact_files.py:45-71 | and the other way round |
| ArtifactWalk.Walker.Visit | packages/ale-run/src/ale/run/artifact_files.py:29-73 | a visit reports only selected paths, each once and as it is, and unless a limit was reached all of them, with the whole subtree of everything reported; a limit is reached only by a deep tree or by more visits than it can take |
| ArtifactWalk.Walker.VisitChildren | packages/ale-run/src/ale/run/artifact_files.py:64-71 | the children a pattern goes on to are visited and no others |
| ArtifactWalk.LinkOn | packages/ale-run/src/ale/run/artifact_files.py:119-129 | a path has a link on it exactly when some part of it is one, even though the search stops at a missing part |
| ArtifactWalk.LiteralPrefix | packages/ale-run/src/ale/run/artifact_files.py:75-81 | the pattern splits at its first part that is not literal |
| ArtifactPrefix.PrefixSelectsAlike | packages/ale-run/src/ale/run/artifact_files.py:75-89 | without exclusions and unlistable directories, what the rest of the pattern selects below the literal prefix is what the whole pattern selects from the root |
| ArtifactWalk.Inspect | packages/ale-run/src/ale/run/artifact_files.py:22-89 | the entries are selected paths of the tree, each once and with its kind and mode; all of them unless truncated; truncated only if the tree is too deep or takes too many visits; none if a link lies above the literal prefix; never more than 100,000 entries nor deeper than 64 |
| ArtifactCapture.Collect | packages/ale-run/src/ale/run/episode.py:419-479 | over all declarations a path is captured once; every item that could be copied is there, with its bytes |
| ArtifactRestore.PlacingWorks | packages/ale-run/src/ale/run/episode.py:500-530 | with no link above it, an entry lands at its path; nothing else appears but directories that lead to it; a clear leaves nothing else below it and a plain step removes nothing |
| ArtifactRestore.ExactIffRootsArePlain | packages/ale-run/src/ale/run/episode.py:486-530 | with no failing command, the captured paths as spelled, no link followed, hold every entry and nothing else below them, and everything else is unchanged, if and only if no link lies above an outermost captured path |
| ArtifactReadBack.ReadsBackIffPlacesAgree | packages/ale-run/src/ale/run/episode.py:486-530 | with no failing command, the places that the outermost captured paths lead to the same or not within one another, and no link followed on the way to one inside any: if outermost paths that lead to one place have captured the same, following each captured path leads to its item, going on below it finds nothing else, and outside those places only directories are new; and only if, where what lies between captured paths is captured |
| ArtifactReadBack.RestoreReadsBack | packages/ale-run/src/ale/run/episode.py:486-530 | so everything is read back where those places are all different |
| ArtifactReadBack.TwoFilesInOnePlace | packages/ale-run/src/ale/run/episode.py:486-530 | in any destination, two captured files that lead to one place are read back if and only if they are alike |
| ArtifactReadBack.RestoredAtPlaces | packages/ale-run/src/ale/run/episode.py:497-530 | where the places are all different, restoring by the captured paths leaves the very file system that restoring at the places they lead to leaves |
| ArtifactStanding.LastOneStands | packages/ale-run/src/ale/run/episode.py:497-530 | an entry stands at its place in the end unless a later one is placed there or a later outermost one clears it |
| ArtifactRestore.StepKeepsProgress | packages/ale-run/src/ale/run/episode.py:500-530 | every placing, whatever it clears or replaces, keeps the account of which entries stand, that nothing else lies below the roots, and that everything else is unchanged |
| ArtifactPlaces.PlacedAlike | packages/ale-run/src/ale/run/episode.py:500-530 | clearing, making directories, writing and setting the mode by a path that leads through links does what it does at the place itself |
| ArtifactReadBack.PlainRootsAreApart | packages/ale-run/src/ale/run/episode.py:486-530 | where no link lies above an outermost captured path the places are apart, so plain destinations are a special case |
| ArtifactReadBack.HarmlessLink | packages/ale-run/src/ale/run/episode.py:486-530 | a concrete destination with a link above the captured file, which is read back all the same |
| ArtifactReadBack.ContentsDecideInOnePlace | packages/ale-run/src/ale/run/episode.py:486-530 | a concrete destination in which two captured files lead to one place, against the condition of RestoreReadsBack: the capture reads back if and only if the two are equal |
| ArtifactRestore.RestoreLeavesExactlyTheCapture | packages/ale-run/src/ale/run/episode.py:486-530 | a later clear never removes an earlier entry |
| ArtifactRestore.LinkLosesAFile | packages/ale-run/src/ale/run/episode.py:486-530 | a concrete destination in which a link makes two captured files end up in one place |
| ArtifactRestore.RestoringKeepsTheTree | packages/ale-run/src/ale/run/episode.py:500-530 | through any links, restoring leaves a well-formed file system |
| ArtifactRestore.SortedByDepth | packages/ale-run/src/ale/run/episode.py:497-499 | entries are restored shallow ones first |
| ArtifactCapture.Sandbox.WriteFile | packages/ale-run/src/ale/run/transport.py:348-357 | writing in pieces is writing the whole file, the empty one included |
| ArtifactCapture.Restore | packages/ale-run/src/ale/run/episode.py:486-530 | a truncated capture is refused untouched; every entry is tried once, in order of depth, whatever became of those before, clearing its place exactly if no earlier one lies at or above it; the number skipped is that of the entries with a failing command; with none skipped the spelled paths hold exactly the capture if and only if no link lies above an outermost one, and, where no place of an outermost one lies within another, following the captured paths reads back exactly the capture if, and without gaps in the capture only if, outermost paths to one place have captured the same; without failing commands none is skipped |
| Jsonl.ReadJsonl | packages/ale-core/src/ale/core/trace.py:225-240 | reading gives the object lines up to the first line that is not one, and that line |
| Jsonl.PrefixReadsWholeLines | packages/ale-core/src/ale/core/trace.py:225-240 | any byte prefix of a record file reads as exactly the records whose lines are whole, and the rest as the torn suffix |
| Jsonl.WholeLinesAreRead | packages/ale-core/src/ale/core/trace.py:225-240 | whole lines are read as their records whatever follows them |
| Jsonl.Open | packages/ale-run/src/ale/run/recording.py:97-118 | opening goes on from the highest number in the leading whole lines, and raises only for undecodable bytes |
| Jsonl.JsonlWriter.Append | packages/ale-run/src/ale/run/recording.py:120-131 | an append takes the next number and adds one line; a record that cannot be encoded leaves a gap and no line |
| Jsonl.ScanFindsHighest | packages/ale-run/src/ale/run/recording.py:104-118 | on a file of whole lines the scan finds the highest number |
| Jsonl.Session | packages/ale-run/src/ale/run/recording.py:97-131 | one session adds its payloads in order with increasing numbers |
| Jsonl.Sessions | packages/ale-run/src/ale/run/recording.py:97-131 | over any series of sessions numbers strictly increase and every payload that can be encoded is there, in order |
| Subscription.ExchangesAreSerialized | packages/ale-run/src/ale/run/subscription.py:206-229 | at most one task of any process is inside the profile lock, and an exchange presents the refresh token stored last while nobody else waits for an answer |
| Subscription.StepKeepsExclusion | packages/ale-run/src/ale/run/subscription.py:206-229 | every step keeps both locks and what their holders know |
| Subscription.SomebodyCanMove | packages/ale-run/src/ale/run/subscription.py:206-229 | the two locks never deadlock: some task can go on until every call has returned |
| Subscription.NoTokenIsPresentedTwice | packages/ale-run/src/ale/run/subscription.py:206-229 | while every exchange is answered with a new token and stored, no refresh token is presented twice |
| Subscription.RaceCostsOneExchange | packages/ale-run/src/ale/run/subscription.py:206-229 | callers racing with the same stale token cost one exchange in all, besides those whose answer was lost, when the new token differs and is fresh |
| Subscription.LostAnswersRepeatTheToken | packages/ale-run/src/ale/run/subscription.py:206-229 | a token whose answer is lost is presented again by each later caller, any number of times |
| SubscriptionOutcome.SuccessLeavesTheProfilesToken | packages/ale-run/src/ale/run/subscription.py:206-229 | in every reachable state a call about to report success has in its credential the token and expiry that the profile holds |
| SubscriptionOutcome.SuccessIsServed | packages/ale-run/src/ale/run/subscription.py:206-229 | a call that comes to report success has either just stored its own answer or finds, at that moment, a token in its credential that is not the stale one and lasts for more than five minutes |
| SubscriptionOutcome.OwnAnswerIsUsed | packages/ale-run/src/ale/run/subscription.py:220-223 | after its own exchange a call leaves the provider's answer to it in the profile and in its credential |
| SubscriptionOutcome.CallsEndAsTold | packages/ale-run/src/ale/run/subscription.py:212-229 | a call ends refreshed if and only if none of its steps failed, and otherwise as the failing step is reported |
| SubscriptionOutcome.StaleIsTheTokenAtCall | packages/ale-run/src/ale/run/subscription.py:206-211 | the token that a call counts as stale is the one its credential had when it was made |
| SubscriptionOutcome.RunTellsLosses | packages/ale-run/src/ale/run/subscription.py:220-228 | answers are lost and logins stored exactly as the steps of the run say, also by a write that is reported to have failed |
| ConfigMerge.DeepMerge | packages/ale-core/src/ale/core/config.py:384-396 | taking the overlay's entries one by one gives the merge |
| ConfigMerge.LookupOfMerge | packages/ale-core/src/ale/core/config.py:384-396 | a lookup in the merge is the overlay's value, merged with the base's where both are sections or additive lists; nothing where the overlay cuts the path off; else the base's |
| ConfigMerge.HighestLayerWins | packages/ale-core/src/ale/core/config.py:437-457 | over any number of layers the highest one that says anything about a path decides it |
| ConfigMerge.AdditiveListsConcatenate | packages/ale-core/src/ale/core/config.py:381-396 | the two additive lists are the concatenation of all layers' lists, lowest first |
| ConfigMerge.MergeIsAssociativeIff | packages/ale-core/src/ale/core/config.py:384-396 | three layers merge in either order to the same result if and only if, wherever the outer two are to be merged and the middle one is not, every path of the lowest is also in the highest and adds nothing to a list there |
| ConfigMerge.AddsNothingIff | packages/ale-core/src/ale/core/config.py:384-396 | a layer leaves no trace below another exactly when all its paths are in it and it adds nothing to an additive list |
| ConfigMerge.MergeIsNotAssociative | packages/ale-core/src/ale/core/config.py:384-396 | three concrete layers whose merge depends on which two are merged first |
| ConfigMerge.AgreementReassociates | packages/ale-core/src/ale/core/config.py:384-396 | layers that agree on sections and additive lists meet that condition |
| ConfigMerge.AssignmentSetsOnePath | packages/ale-core/src/ale/core/config.py:371-378 | an override sets its path and nothing beside it, and fails exactly when something that is not a section is in the way |
| ConfigMerge.MergeLayers | packages/ale-core/src/ale/core/config.py:437-457 | preset, run file and overrides are merged in this order; an override that cannot be set is an error |
| Stepwise.CheckStep | packages/ale-core/src/ale/core/trajectory.py:232-257 | a step passes exactly when its calls are distinct and each result belongs to one of them, at most one each |
| Stepwise.TrajectoryBuilder.Add | packages/ale-core/src/ale/core/trajectory.py:298-312 | steps are numbered on from 1 |
| Stepwise.TrajectoryBuilder.Append | packages/ale-core/src/ale/core/trajectory.py:314-317 | a step from elsewhere is renumbered and otherwise kept |
| Stepwise.TrajectoryBuilder.Build | packages/ale-core/src/ale/core/trajectory.py:319-327 | building succeeds exactly on a nonempty trajectory that passes the check |
| Stepwise.StalledIsLongest | packages/ale-run/src/ale/run/envs.py:187-211 | the stall count is the longest suffix of turns that made no difference |
| Stepwise.SandboxEnv.NoteProgress | packages/ale-run/src/ale/run/envs.py:187-211 | the running count, screen and batch stay those of the history: against the last screen ever looked at when looking, else against the batch before |
| Stepwise.AppliedIsAccepted | packages/ale-run/src/ale/run/envs.py:111-149 | as many calls are recorded as accepted as the guest applied, and no more than there are; a screenshot always is |
| Stepwise.FirstOnesAreAccepted | packages/ale-run/src/ale/run/envs.py:111-149 | they are the first ones |
| Stepwise.SandboxEnv.Record | packages/ale-run/src/ale/run/envs.py:111-149 | calls and results are recorded in order, accepted as far as the guest got, screenshots always |
| Stepwise.SandboxEnv.Step | packages/ale-run/src/ale/run/envs.py:91-180 | an empty batch ends the episode and a failing guest changes nothing; any other batch is recorded as one step, and the ceiling is reported before the stall |
| Stepwise.SandboxEnv.Reset | packages/ale-run/src/ale/run/envs.py:79-89 | the first observation carries the instruction and nothing to look at, and the history starts anew |
| Stepwise.Rollout | packages/ale-core/src/ale/core/harness.py:346-354 | for every policy and guest the rollout ends within the ceiling, or one step, of nonempty batches, for the reason it reports, and the trajectory tells every turn |
| Stepwise.RunPhase | packages/ale-core/src/ale/core/trajectory.py:232-257 | the trajectory of a stepwise phase always passes the check |
| Judge.WaitToRetry | packages/ale-verify/src/ale_verify/_llm.py:480-504 | a retry waits its backoff exactly when the budget covers it, or the count without a deadline |
| Judge.WaitsAreAsWished | packages/ale-verify/src/ale_verify/_llm.py:480-483 | a provider's wish is kept, up to ten minutes; without one the wait is between half and all of a step that doubles from one second to one minute |
| Judge.RunLlm | packages/ale-verify/src/ale_verify/_llm.py:117-223 | attempts are numbered from 1, each with the reply to its request, and only the last may complete; repairs and retries without a deadline are bounded; a repair follows an invalid answer and quotes the last error; the loop stops, and only for one of its reasons; at most seven attempts without a deadline |
| Judge.NextCeiling | packages/ale-verify/src/ale_verify/_llm.py:255-303 | the next ceiling is the stated one if lower, else half the tried one but not below 4096, and none after that |
| Judge.Request | packages/ale-verify/src/ale_verify/_llm.py:255-303 | the ceilings tried strictly decrease until one is taken; the last is remembered; it gives up only at the lowest or on another error |
| AgentJudge.RunAgent | packages/ale-verify/src/ale_verify/_agents.py:96-339 | the same bounds for the agent Judge; the loop ends completed, for one of its reasons, or with the time used up between attempts |
| AgentJudge.ResumesOnlyNamedSessions | packages/ale-verify/src/ale_verify/_agents.py:113-131 | a command resumes exactly the named session of the invalid answer just before it; any other command gets a new session or none |
| AgentJudge.RunOne | packages/ale-verify/src/ale_verify/_agents.py:150-336 | how one command is judged, and the session it leaves |
| Ledger.Ledger.constructor | packages/ale-run/src/ale/run/ledger.py:116-126 | after opening every row says what its result file says, or is interrupted if it was unfinished and has none |
| Ledger.Ledger.Reconcile | packages/ale-run/src/ale/run/ledger.py:311-321 | rows with a readable result file take its status, row by row |
| Ledger.Ledger.InterruptStale | packages/ale-run/src/ale/run/ledger.py:323-333 | queued and running rows become interrupted |
| Ledger.Ledger.QueueEpisode | packages/ale-run/src/ale/run/ledger.py:197-222 | a queued row is added unless its id is taken |
| Ledger.Ledger.CountDone | packages/ale-run/src/ale/run/cli/tasks.py:433-448 | the number of completed rows of an identity |
| Ledger.Ledger.Schedule | packages/ale-run/src/ale/run/cli/tasks.py:433-461 | exactly the episodes an identity still lacks are queued, all of them when results are not reused |
| LedgerRecovery.NeverMoreThanAskedFor | packages/ale-run/src/ale/run/cli/tasks.py:433-461 | over any resumed invocations and crashes an identity never has more completed episodes than asked for, and no episode runs twice |
| LedgerRecovery.CompletedWorkIsKept | packages/ale-run/src/ale/run/ledger.py:311-321 | the next invocation owes exactly what is missing, even if a crash came between a result file and its row |
| LedgerCompletion.EveryRunCanBeCompleted | packages/ale-run/src/ale/run/cli/tasks.py:433-461 | wherever invocations and crashes have left a run, a new invocation can complete exactly the episodes asked for |
| LedgerRecovery.OpeningLeavesNothingUnfinished | packages/ale-run/src/ale/run/ledger.py:116-126 | right after opening no row is queued or running, and a row is completed exactly when its result file says so |
| LedgerRecovery.StepKeepsSoundness | packages/ale-run/src/ale/run/ledger.py:224-279 | every step and crash keeps rows, files and jobs in agreement |
| LedgerRecovery.StepKeepsPlan | packages/ale-run/src/ale/run/cli/tasks.py:433-461 | completed episodes, those under way and those to come never exceed what was asked for |
| Assets.Store.Replace | packages/ale-run/src/ale/run/assets.py:320-337 | what replacing leaves at every destination and backup, for every schedule of failing renames, copies and renames back |
| Assets.FailureRestoresIff | packages/ale-run/src/ale/run/assets.py:322-335 | a failure leaves every destination as it was if and only if no rename to a backup failed and every rename back worked |
| Assets.FailureKeepsAllIff | packages/ale-run/src/ale/run/assets.py:322-335 | after a failure every directory is still in its place or its backup if and only if no rename to a backup failed or a failing rename back stopped the rollback before it |
| Assets.RenameFailureLosesFolders | packages/ale-run/src/ale/run/assets.py:322-335 | a concrete failing rename that deletes two directories |
| Assets.Store.BackUp | packages/ale-run/src/ale/run/assets.py:323-325 | destinations are moved aside up to the first that cannot be |
| Assets.Store.RollBack | packages/ale-run/src/ale/run/assets.py:331-335 | every destination becomes its backup, or is gone, up to the first that cannot be renamed back; that one is gone and those after it are as they were |
| Gpu.AllRemain | packages/ale-run/src/ale/run/gpu.py:79-86 | consuming the words greedily decides whether the wanted words occur in order |
| Gpu.AcceptsModel | packages/ale-run/src/ale/run/gpu.py:73-86 | a name accepts a model that includes all its words in order; no names accept every model |
| Gpu.Acquire | packages/ale-run/src/ale/run/gpu.py:98-127 | a lease locks the first free candidates in order, as many as asked for, or nothing at all |
| Gpu.Lease.Release | packages/ale-run/src/ale/run/gpu.py:133-140 | releasing frees exactly the leased devices, once |

## Left out

- The gateway's handlers are a step relation on values, not objects: HTTP parsing, headers, authorization and
  provider dialects are not modelled, nor the refusals of the Gemini dialect. SHA-256 keys are taken as
  distinct numbers, debug payloads and trace writes as not raising. A lock acquisition counts as a suspension,
  which allows more interleavings than the code has. Records of a closed session are dropped.
- GatewayAccounting.CountersAgreeWithTrace: for a session that stays open; a closed one drops its records.
- GatewayKeeping.OnlyWholeSuccessesAreKept: whether a stream is complete is told by the dialect and is a parameter here.
- GatewayPump: a provider that neither sends nor ends is a run without further reads; closing the consumer stops the pump, whose last item nobody reads.
- GatewayReplay.OneCallPerKey: cancelled owners keep their key, so the claim is about handlers, and delivery is stated separately.
- Lease entries are values found by their sandbox, so aliasing of entry objects is not captured; the outcome
  carries the sandbox it is about, which the written outcome does not. Cancellation inside a destroy is not modelled.
- Episode.FinishEpisode: provenance, timings, artifacts and what the lock records besides outcomes are not modelled.
- TreeDigest.StreamIdentifiesTree: lengths of 2^64 and more, which raise in the code, are excluded.
- TreeBody.Body: names, link targets and messages are taken to be valid UTF-8; one that is not raises an error that the body writer does not catch, and the body then has neither `end` nor `abort`.
- TreeDigest.DigestTellsTreesApart: names, as bytes, are not empty and hold no slash; one that is not valid UTF-8 raises in the code.
- TreeDigest.Digest takes the paths in the order the walk sorts them; SHA-256 itself is not modelled.
- ArtifactPrefix.PrefixSelectsAlike: exclusions are matched below the prefix only, and a directory above it need not be listable, so both are left out of the comparison.
- ArtifactWalk.Inspect: the bound on visits is an upper one, since a path met again is not walked again; the list of reasons for skipped paths is not modelled, and reading an artifact's bytes is not either.
- ArtifactRestore.ExactIffRootsArePlain: about the captured paths as they are spelled; what is read through links is the subject of ArtifactReadBack.RestoreReadsBack.
- ArtifactReadBack.ReadsBackIffPlacesAgree: places properly within one another, and links that lie inside the place of a path, its own included, are outside it, although a restore can survive them; the only-if half asks for a capture without gaps, which one declaration gives (ArtifactGlob.BetweenIsSelected) but several with different exclusions need not.
- ArtifactReadBack.RestoreReadsBack: the case of different places; the equivalence is ReadsBackIffPlacesAgree.
- ArtifactCapture.Restore: a failing command may leave any file system behind, so nothing is said of the bytes once an entry was skipped. POSIX paths and modes; Windows paths, which compare without case, are not modelled, nor relative link targets.
- ArtifactRestore.RestoreLeavesExactlyTheCapture: the direction from the condition to the result; the equivalence is ExactIffRootsArePlain.
- Jsonl.Sessions: a file that ends in a torn line is not reopened, since the next record would land on that line.
- Jsonl: redaction of recorded streams and the blob store are not modelled; floating-point and boolean numbers are one kind of number.
- Subscription: credentials are values in a step relation over many tasks, not objects; parsing of profiles and tokens, HTTP and OIDC discovery are outcomes; cancellation while a lock is awaited is not modelled.
- Subscription.NoTokenIsPresentedTwice: without rotation a provider expects the same token again, and a lost answer repeats it, so both are excluded; a provider is taken not to issue a refresh token twice.
- ConfigMerge: dictionaries are values, so that `_assign` writes into nested dictionaries in place is not captured; parsing of override texts is not modelled.
- Stepwise.SandboxEnv.Step: a step after the episode is over is not refused, as in the code.
- Stepwise: call ids are pairs of numbers instead of formatted texts; references to subagent trajectories and the field validators are not modelled.
- Judge.RunLlm: under a deadline, an attempt after which the provider asks for a retry at once is taken to last some time, since otherwise that loop need not end; a negative retry wish makes the sleep raise, which is an ending of its own.
- Judge: reading provider streams, prompts, schemas and journals are not modelled; times are whole milliseconds.
- LedgerRecovery.NeverMoreThanAskedFor: for invocations that reuse results with clean assets, the same number of episodes each time, and each identity scheduled once an invocation; a new episode id is one never used; two processes on one ledger are not modelled.
- Ledger: migration of old tables, phases, timestamps and failure texts are not modelled.
- Assets.Store.Replace: removals, which the code lets fail silently, are taken to succeed, and the checks of asset paths before anything is touched are not modelled.
- Gpu.AcceptsModel: starts from word lists; lower-casing, the alias table and the splitting into words are not modelled.
- Gpu.Acquire: a lock file that cannot be opened is not modelled.
- Verification protocols, guest daemon, providers, image building, framework installers, linting, command line and user interface are not part of this model.
