# StegoLab, modelled and proved in Dafny

This project models the parts of StegoLab whose correctness rests on an argument rather than on one line of
code, and proves what they are for:

* **Message protection.** Multiplication in GF(256), the generator polynomial, the in-place division that appends
  32 check bytes, interleaving, padded authenticated frames and the repetition vote. The chain ends in one
  statement: a message within capacity, spread over the bits of a map, is decoded exactly however the map's bits
  were flipped, as long as no block holds more than 16 bytes with a bit that lost its vote.
* **Duplicate and leakage groups.** The union-find loop with path halving and no ranks, split decisions and
  representatives, for every list of records.
* **The durable job queue.** Submission, replay, actions, the scheduler and its worker, cache cleanup, shutdown,
  crash and restart as atomic steps over a job table, an event log, a mutation table and secrets in memory; and
  the service as an object whose methods do those steps.
* **The resumable sampler and training across stops.** Lazy reshuffling, transactional batches, save and restore,
  and the accumulation loop, over any sequence of stops, failures, crashes and resumptions.
* **Checkpoint retention and publication.** The online rule over the index against the rule over the whole
  history, and a save cut off between any two steps.
* **The two budget ledgers and the dataset writer.** The instance-session validator against its declarative rule,
  exactly when each operation saves; the reservation ledger over crashes; staging with ownership markers.
* **PNG structure.** The chunk parser against the chunk lists it accepts, and the Adam7 byte budget.

Code that changes state is a class or a loop proved against a specification; code made of expressions is a
function, and what such a function computes is also stated without it (the modules whose names end in `Outcomes`,
`MessageLayout`, `CheckpointRanking` and `PilotEpochs`). Main theorems quantify over all inputs, all runs or all
reachable states. Bytes are integers below 256, times are exact reals, and code this project cannot see (ciphers,
digests, the library's block codec, the random generator, zlib, UTF-8) is a parameter. What is relied on is written
out as a predicate: `SoundCipher`, `SoundCodec`, `SoundBlocks`, `SoundRandom`. The CRC, color profile and zlib functions
of `Judges` are under no law at all: the PNG results hold whatever they answer. `dafny verify dfyconfig.toml` checks
everything.

Five findings came out of the proofs, each with its exact condition and a concrete input.

* A retry under an accepted request identifier is answered with its job exactly when it is the same request and, for
  encoding and decoding, the process is still the one that accepted it: their fingerprint is digested under a key that
  every process draws anew (`RetryIsAnsweredExactly`). The same encode request sent again after a crash and a restart
  is refused as a conflict (`RetryAfterRestartIsRefused`).
* Interrupting jobs at shutdown does not discard their secrets, so "secrets are held only for waiting jobs" fails
  exactly for the jobs reconciled then (`SecretsKeptExactly`, `SecretsCanOutliveTheirJob`).
* An attested session that passes its own checks is still refused by the ledger exactly when a recorded session starts
  at the same instant (`AttestKeeps`, `AttestationCanFail`); that session is one of zero length
  (`EqualStartIsZeroLength`).
* A transfer that passes its own check through the tolerance is refused by the ledger exactly when it would take the
  source stage below zero (`TransferKeeps`, `TransferCanFail`).
* The proof budget's caps hold after a run exactly when every clean exit of the run stayed within its reservation
  (`CapsHoldExactly`). An overrun does not close the project: after 7300 seconds charged to one experiment, another one
  is still admitted, for the 7100 seconds that are left (`OverrunThenAnother`).

## Model

| member | source | states |
|---|---|---|
| GaloisField.MultiplyField | scripts/generate_protocol_fixtures.py:19-29 | the shift-and-xor loop computes the product of two bytes in the field |
| GaloisField.LeftLinear | scripts/generate_protocol_fixtures.py:19-29 | multiplication distributes over xor on the left |
| GaloisField.RightLinear | scripts/generate_protocol_fixtures.py:19-29 | multiplication distributes over xor on the right |
| GaloisField.Associative | scripts/generate_protocol_fixtures.py:19-29 | multiplication is associative on all bytes |
| GaloisField.Commutative | scripts/generate_protocol_fixtures.py:19-29 | multiplication is commutative on all bytes |
| GaloisField.Identity | scripts/generate_protocol_fixtures.py:19-29 | one is neutral on both sides |
| PowersOfTwo.PowersDistinct | scripts/generate_protocol_fixtures.py:32-43 | the 255 powers 2^0..2^254 are pairwise distinct |
| PowersOfTwo.NoZeroDivisors | scripts/generate_protocol_fixtures.py:19-29 | a product is zero only if a factor is |
| ReedSolomon.ExpandByRoot | scripts/generate_protocol_fixtures.py:37-40 | the inner loop multiplies the list by x + root |
| ReedSolomon.GeneratorCoefficients | scripts/generate_protocol_fixtures.py:32-43 | the loop builds exactly the monic product of x + 2^i for i below 32 |
| ReedSolomon.MonicProductRoots | scripts/generate_protocol_fixtures.py:32-43 | that product is monic and vanishes at exactly the given roots |
| ReedSolomon.EvaluateProduct | scripts/generate_protocol_fixtures.py:32-56 | values multiply as polynomials do |
| ReedSolomon.DividedInvariant | scripts/generate_protocol_fixtures.py:52-55 | what the division has taken away is the quotient so far times the divisor |
| ReedSolomon.CancelInPlace | scripts/generate_protocol_fixtures.py:53-55 | the inner loop changes the array as one cancellation step says |
| ReedSolomon.ProtectBlock | scripts/generate_protocol_fixtures.py:46-56 | a 223-byte block becomes its code word; any other size is refused |
| ReedSolomon.ProtectIsMultiple | scripts/generate_protocol_fixtures.py:46-56 | the code word is the quotient times the generator |
| ReedSolomon.ProtectIsCodeWord | scripts/generate_protocol_fixtures.py:46-56 | the code word has 255 bytes, keeps the data in front and is zero at each of 2^0..2^31 |
| CodeDistance.LowWeightIsZero | scripts/generate_protocol_fixtures.py:46-56 | a word with at most t nonzero bytes that vanishes at t consecutive powers is zero |
| CodeDistance.MinimumDistance | scripts/generate_protocol_fixtures.py:46-56 | distinct code words differ in at least 33 positions |
| CodeDistance.ProtectedBlocksDiffer | scripts/generate_protocol_fixtures.py:46-56 | outputs for distinct data blocks differ in at least 33 of 255 positions |
| CodeDistance.DistanceIsTight | scripts/generate_protocol_fixtures.py:32-43 | the bound 33 is attained |
| CodeDistance.CodeWordsAreProtected | scripts/generate_protocol_fixtures.py:46-56 | the words vanishing at the 32 roots are exactly the outputs for their own data |
| CodeDistance.UniqueDecoding | backend_service/message_correction.py:14-16 | a received word is within 16 byte errors of at most one block's code word |
| CodeDistance.EncodersAgree | backend_service/message_correction.py:14-30 | an encoder that keeps the data in front of code words gives on every whole block what the written-out division gives |
| CodeDistance.EncodingIsPossible | backend_service/message_correction.py:14-30 | the contract asked of the block encoder can be met |
| CodeDistance.CorrectionIsPossible | backend_service/message_correction.py:14-16 | the contract asked of the block decoder can be met |
| MessageCorrection.StrideOfInterleave | backend_service/message_correction.py:19-52 | taking every count-th byte undoes column-wise joining |
| MessageCorrection.JoinOfBlocks | backend_service/message_correction.py:19-32 | cutting a frame into blocks loses nothing |
| MessageCorrection.RestoreUndoesProtect | backend_service/message_correction.py:19-52 | restoring undoes protecting under up to 16 altered bytes a block, for any library codec that meets its contract |
| MessageCorrection.BurstIsSpread | backend_service/message_correction.py:19-52 | a run of 16 times block_count consecutive bytes touches each block at most 16 times |
| PayloadCapacity.CapacityFits | backend_service/payload_capacity.py:17-37 | for every supported size the guard never fires, the record's bounds hold, and frame, correction and repetition bits add up |
| PayloadCapacity.CapacityIsGreatest | backend_service/payload_capacity.py:20-36 | the message may be the longest of at most 1024 bytes with 1024 pixels a byte, the blocks are the fewest that hold it, and the map covers every pixel |
| MessageLayout.ValidIsSupported | schemas/image_dimensions.py:14-25 | which dimensions and identities are supported |
| MessageFrame.ContextIsUnambiguous | backend_service/message_frame.py:43-52 | equal authenticated contexts come from equal headers, identities and sizes |
| MessageFrame.BodyIsCanonical | backend_service/message_frame.py:109-136 | a decrypted body reads as a text exactly when it is that text's canonical padded body |
| MessageFrame.RecoverFrameExactly | backend_service/message_frame.py:109-136 | a frame is accepted as a text exactly when it opens to that canonical body |
| MessageFrame.RecoverUndoesCreate | backend_service/message_frame.py:69-136 | recovering undoes creating, and the frame has the planned size |
| MessageLayout.CreateAcceptsWithinCapacity | backend_service/message_frame.py:69-106 | a message is framed exactly when the size is supported, its encoding has at most 1024 bytes and 1024 pixels a byte, and the password fits; each refusal has its exact reason |
| MessageLayout.FrameIs | backend_service/message_frame.py:93-104 | a frame is "SGLB", the version, salt, nonce and the sealed length, message and zeros, in the fewest blocks |
| MessageLayout.AuthenticatedContextIs | backend_service/message_frame.py:43-52 | the authenticated bytes are the protocol's name, the header, the identity with its length, and the dimensions |
| MessageLayout.RecoverRefuses | backend_service/message_frame.py:109-136 | a frame is refused for an unsupported context, then for the password, and otherwise without a reason |
| MessageLayout.ProtectsExactly | backend_service/message_correction.py:19-32 | exactly frames of the right size are protected, 223 bytes becoming 255 |
| MessageLayout.RestoresExactly | backend_service/message_correction.py:35-52 | a word is restored exactly when it has the right size and every one of its blocks can be decoded |
| MessageLayout.SpreadsExactly | backend_service/payload_map.py:14-28 | exactly words of the right size are spread; every pixel repeats the word's bits in turn, most significant first |
| MessageLayout.ReadsExactly | backend_service/payload_map.py:31-49 | a received map is read exactly when it has one value a pixel, zero or one if it is hard |
| MessageFrame.DecodeUndoesEncode | backend_service/message_protocol.py:8-15 | encoding within capacity succeeds and decoding returns the message after up to 16 altered bytes a block |
| MessageFrame.DecodeSurvivesBurst | backend_service/message_protocol.py:8-15 | decoding returns the message after any burst of 16 times block_count bytes |
| PayloadMap.PackIsUnpacked | backend_service/payload_map.py:23-59 | packing bits gives a word exactly when they are its bits, most significant first |
| PayloadMap.RowsAndRemainder | backend_service/payload_map.py:51-58 | full-row sums plus the remainder are the sum and the count over all congruent positions |
| PayloadMap.SumVotes | backend_service/payload_map.py:50-54 | the array holds for each bit the sum over its copies |
| PayloadMap.RecoverPayloadBytes | backend_service/payload_map.py:31-61 | the array computation is the vote of each bit, with the shape and value checks |
| PayloadMap.RecoverExactly | backend_service/payload_map.py:14-61 | hard-bit recovery gives the sent bytes exactly when fewer than half of each bit's copies flipped, or half of a zero's |
| PayloadMap.RecoverUndoesCreate | backend_service/payload_map.py:14-61 | an undamaged map is recovered |
| PayloadMap.HardAgreesWithSoft | backend_service/payload_map.py:31-61 | hard bits and plus or minus one logits give the same result |
| MessageTransmission.MisreadIsDamage | backend_service/payload_map.py:31-61 | a vote that comes out wrong damages only the byte that holds its bit |
| MessageTransmission.CountTrueIs | backend_service/message_protocol.py:8-15 | the bytes of a block that are counted against its sixteen are those that hold a wrongly read bit, each once |
| MessageTransmission.DecodeSurvivesVoting | backend_service/message_protocol.py:8-15 | a received map, hard or soft, gives the message back when each block has at most 16 bytes holding a wrongly read bit |
| MessageTransmission.DecodeSurvivesFlips | backend_service/payload_map.py:14-61 | encoded, spread, flipped in any bits, voted on and decoded, the message comes back when each block has at most 16 bytes holding a bit that did not survive its flips |
| DisjointSets.Find | backend_service/dataset_groups.py:74-79 | the loop ends at the root, and path halving changes no root |
| DisjointSets.RootsDetermined | backend_service/dataset_groups.py:72-90 | a parent array has only one assignment of roots |
| DisjointSets.HalvingKeepsForest | backend_service/dataset_groups.py:76-78 | one halving keeps the array acyclic and moves up the ranks |
| DisjointSets.LinkKeepsForest | backend_service/dataset_groups.py:90 | linking one root to another keeps the array acyclic and joins two trees |
| DisjointSets.Unite | backend_service/dataset_groups.py:90 | the assignment joins exactly the two trees of its arguments |
| DatasetAssignment.UniteRecords | backend_service/dataset_groups.py:72-92 | two records have one root exactly when a chain of shared checksums or identities links them; first paths are kept per checksum |
| DatasetAssignment.CollectMembers | backend_service/dataset_groups.py:93-95 | each record is listed exactly once, in record order, under its own root, and each root is listed once |
| DatasetAssignment.DecideGroups | backend_service/dataset_groups.py:96-122 | every member gets its whole group's decision, or a conflict is reported |
| DatasetAssignment.CompleteRecords | backend_service/dataset_groups.py:123-133 | the records are completed in order |
| DatasetAssignment.Assign | backend_service/dataset_groups.py:17-140 | the whole computation is the specified assignment, with its error cases |
| GroupProperties.ResultIsSortedPermutation | backend_service/dataset_groups.py:68-133 | the result is the input once each, sorted by path |
| GroupProperties.NoLeakage | backend_service/dataset_groups.py:81-122 | records linked by any chain get one group and one split |
| GroupProperties.GroupIdentifiersSeparate | backend_service/dataset_groups.py:97-104 | without digest collisions only linked records share a group identifier |
| GroupProperties.OrderIndependent | backend_service/dataset_groups.py:60-140 | the result does not depend on input order |
| GroupProperties.AssigningAgain | backend_service/dataset_validation.py:137-146 | assigning again returns the same list |
| GroupProperties.RepresentativeIsLeast | backend_service/dataset_groups.py:84 | the representative is the least path with the same pixels |
| GroupProperties.DecidableExactly | backend_service/dataset_groups.py:105-114 | a group is refused exactly when a label is unmapped or two labels declare different splits |
| GroupProperties.DeclaredSplitSpreads | backend_service/dataset_groups.py:105-122 | every record linked to a declared one gets the declared split |
| GroupProperties.GroupUnchanged | backend_service/dataset_groups.py:81-95 | records sharing no token with a group leave it as it was |
| GroupProperties.SplitIsLocal | backend_service/dataset_groups.py:97-122 | and leave its identifier and split |
| GroupOutcomes.GroupIsLeastClosed | backend_service/dataset_groups.py:81-95 | a record's group is the least set that holds it and everything with the pixels or identity of a member |
| GroupOutcomes.IdentifierIsDigest | backend_service/dataset_groups.py:97-104 | the group identifier is the digest of its members' checksums and identities |
| GroupOutcomes.DrawnSplit | backend_service/dataset_groups.py:117-120 | a record of a group without declared splits is for training exactly when the draw modulo 100 is below 80, for tuning from 80 to 89, held out from 90 |
| GroupOutcomes.AssignedExactly | backend_service/dataset_groups.py:26-140 | exactly when records are assigned, and each error's exact condition by kind of source, labels and training images |
| JobStore.SavedConsistent | backend_service/workflow_store.py:115-164 | a transaction keeps the job table the fold of the event log and identifiers increasing |
| JobStore.WorkflowStore.Replay | backend_service/workflow_store.py:68-84 | a repeated request finds its job as it is now; another payload is a conflict |
| JobStore.WorkflowStore.Save | backend_service/workflow_store.py:115-164 | snapshot, event and mutation are published together or not at all |
| JobStore.WorkflowStore.ListJobs | backend_service/workflow_store.py:106-113 | every job once, by creation time and then identifier |
| TextOrder.AtMostIsLexicographic | backend_service/workflow_store.py:106-113 | identifiers and paths are compared by the first character that differs |
| JobStore.PageIs | backend_service/workflow_store.py:166-174 | a page is the next 200 events after the cursor, or all that are left |
| JobStore.ReadPageSynchronized | backend_service/workflow_store.py:166-174 | a page of 200 keeps a client in step with the log and moves it on |
| JobStore.ClientReachesTable | backend_service/workflow_routes.py:87-108 | a client in step that keeps reading reaches the server's table |
| JobQueueSafety.StepSafe | backend_service/workspace_jobs.py:54-235 | every step keeps the invariant, leaves terminal jobs, only appends events and keeps accepted requests |
| JobQueueSafety.RunSafe | backend_service/workflow_supervision.py:22-166 | so does every run, over crashes and restarts |
| JobQueueSafety.TransitionEvolves | backend_service/workspace_jobs.py:195-211 | an offered action has a transition, and the new state offers what it should |
| JobQueueSafety.ExitEvolves | backend_service/workflow_fetch_runner.py:74-124 | every end of a worker leads to a state that is not running and offers what it should |
| JobQueueSafety.InterruptLeavesNone | backend_service/workspace_jobs.py:70-72 | reconciliation leaves no listed job queued or running |
| JobQueueTheorems.QueueIsSafe | backend_service/workspace_jobs.py:54-235 | in every reachable state at most one job runs, at most one fetch is active, none during a cleanup, and the table is the fold of the log |
| JobQueueTheorems.TerminalNeverChanges | backend_service/workspace_jobs.py:213-235 | over any run terminal jobs stay as they are and no job disappears |
| JobQueueTheorems.RequestTakesEffectOnce | backend_service/workspace_jobs.py:110-193 | whatever is sent under an accepted request identifier, at any later time, changes nothing: it is answered with the accepted job as it is now if it has the accepted fingerprint, and refused otherwise |
| JobQueueRetries.RunKey | backend_service/inference_secrets.py:34-44 | over a run the key that digests secrets stays exactly when no crash or failed start ends the process |
| JobQueueRetries.RetryIsAnsweredExactly | backend_service/inference_jobs.py:78-92 | after any run a retry is answered with its job exactly when it is the same request and, for encoding and decoding, the process is still the one that accepted it; otherwise it is refused |
| JobQueueRetries.RetriedActionIsAnswered | backend_service/workspace_jobs.py:164-173 | a repeated action is answered with its job at any later time, exactly when it is the same action of the same job |
| JobQueueRetries.RetryAfterRestartIsRefused | backend_service/inference_jobs.py:78-92 | a run in which the same encode or decode request is refused: submitted, crash, restart, submitted again |
| JobQueueTheorems.AcceptedIsRecorded | backend_service/workspace_jobs.py:110-162 | an accepted submission is durable under its identifier; a refused one changes nothing |
| JobQueueTheorems.SecretsNeverOverflow | backend_service/inference_jobs.py:98-125 | storing secrets after the durable accept cannot overflow |
| JobQueueTheorems.ListedActionsAreAccepted | backend_service/workspace_jobs.py:164-211 | in every reachable state an action is accepted exactly when it is listed, so the refusing branches are unreachable |
| JobQueueTheorems.SecretsOnlyForWaitingJobs | backend_service/inference_secrets.py:46-69 | until the service closes, secrets belong to queued or running inference jobs |
| JobQueueTheorems.SecretsKeptExactly | backend_service/workflow_supervision.py:151-158 | a step breaks that exactly when it is the shutdown's reconciliation of a job with secrets |
| JobQueueTheorems.SecretsCanOutliveTheirJob | backend_service/workflow_supervision.py:123-158 | a run in which it is broken |
| JobQueueTheorems.BrowserFollows | backend_service/workflow_routes.py:87-108 | a browser that starts from a snapshot at any time, reads pages and reconnects between any steps, is never ahead of the log and always in step with it; reading on brings it to the server's table |
| JobQueueLimits.StepLimited | backend_service/workspace_jobs.py:131-141 | every step keeps at most one waiting or running training for an experiment and at most eight inference jobs |
| JobQueueLimits.QueueIsLimited | backend_service/inference_jobs.py:98-104 | so does every reachable state |
| JobQueueLimits.CrashThenRestart | backend_service/workspace_jobs.py:54-76 | a crash at any moment and a restart interrupt exactly the queued and running jobs and change no other |
| JobQueueLimits.StopsEndAsAsked | backend_service/workflow_fetch_runner.py:74-100 | a stopped fetch ends cancelled or paused as it was asked, and resuming queues it again as the same job |
| JobQueueLimits.ClosingAcceptsNothing | backend_service/workspace_jobs.py:118-122 | a closing service accepts nothing new |
| JobQueueOutcomes.SubmissionDoes | backend_service/workspace_jobs.py:110-162 | a new submission is accepted exactly when storage works and it is admissible for its kind; the job, event, mutation and secrets it leaves |
| JobQueueOutcomes.RefusalSays | backend_service/inference_jobs.py:71-104 | what each reason for refusing a submission says |
| JobQueueOutcomes.ActionDoes | backend_service/workspace_jobs.py:164-211 | in every reachable state an action is done exactly when its job offers it; cancel, stop, pause and resume leave the job where they say and everything else as it was |
| JobQueueOutcomes.CancelledForGood | backend_service/workspace_jobs.py:195-202 | a cancelled queued or paused job is cancelled after every further run |
| JobQueueOutcomes.OffersAre | backend_service/workspace_jobs.py:195-211 | the actions a job offers in every reachable state |
| JobQueueOutcomes.StartsExactly | backend_service/workflow_supervision.py:22-45 | exactly the first job in creation order starts that waits and is not held back by the proof lock |
| JobQueueOutcomes.StartDoes | backend_service/workflow_supervision.py:36-45 | a started job runs and offers what its kind can be asked |
| JobQueueOutcomes.ProgressDoes | backend_service/workflow_fetch_runner.py:48-71 | progress shows what was asked, and a fetch nobody asked anything of says whether it can pause |
| JobQueueOutcomes.ExitDoes | backend_service/workflow_fetch_runner.py:74-124 | each end of a worker leaves its job completed, stopped, failed, cancelled, paused or interrupted, with its error, as the end, the request and the shutdown say |
| JobQueueOutcomes.AskToSaveDoes | backend_service/workflow_supervision.py:127-136 | closing asks a running training to save and leaves everything else alone |
| JobQueueOutcomes.ReconcilingDoes | backend_service/workspace_jobs.py:70-72 | starting and shutting down interrupt exactly the waiting jobs, saying what was lost |
| JobQueueOutcomes.ReconnectDoes | backend_service/workflow_routes.py:82-98 | a browser in step that connects again goes on, unless it has lost its cursor |
| JobService.InferenceSecretStore.Put | backend_service/inference_secrets.py:46-59 | secrets are kept unless a new job finds the store full |
| JobService.InferenceSecretStore.Pop | backend_service/inference_secrets.py:61-64 | secrets are handed out once |
| JobService.WorkspaceJobService.RunnerTakesSecrets | backend_service/inference_runner.py:118-125 | a running inference job's secrets are handed out once, as its step says |
| JobService.CountWaitingInference | backend_service/inference_jobs.py:98-104 | the list's waiting inference jobs are those of the table |
| JobService.FirstEligible | backend_service/workflow_supervision.py:26-36 | the first eligible job of the list, or none if there is none |
| JobService.WorkspaceJobService.Start | backend_service/workspace_jobs.py:54-76 | starting reconciles every unfinished job, then idles |
| JobService.WorkspaceJobService.Submit | backend_service/workspace_jobs.py:110-162 | a workflow submission is the specified step and reply |
| JobService.WorkspaceJobService.SubmitFetch | backend_service/dataset_fetch_jobs.py:139-180 | a fetch submission is the specified step and reply |
| JobService.WorkspaceJobService.SubmitInference | backend_service/inference_jobs.py:71-125 | an inference submission is the specified step and reply |
| JobService.WorkspaceJobService.Action | backend_service/workspace_jobs.py:164-193 | an action is the specified step and reply |
| JobService.WorkspaceJobService.NextJob | backend_service/workflow_supervision.py:22-45 | the oldest eligible job is marked running before work starts |
| JobService.WorkspaceJobService.Progress | backend_service/workflow_fetch_runner.py:48-71 | progress is published with the phase and actions the request intent allows |
| JobService.WorkspaceJobService.Finish | backend_service/workflow_fetch_runner.py:103-185 | the end of a worker is the specified final state |
| JobService.WorkspaceJobService.ReportFailure | backend_service/workflow_supervision.py:48-78 | a failure becomes failed, or interrupted while closing |
| JobService.WorkspaceJobService.Forget | backend_service/workflow_supervision.py:100-102 | after a worker's end the scheduler forgets its job and waits |
| JobService.WorkspaceJobService.BeginCleanup | backend_service/dataset_source_service.py:187-192 | the flag is raised only with no active fetch and no other cleanup |
| JobService.WorkspaceJobService.EndCleanup | backend_service/dataset_source_service.py:193-199 | the flag is lowered again |
| JobService.WorkspaceJobService.RaiseClosing | backend_service/workflow_supervision.py:125 | the flag alone is raised, before the lock |
| JobService.WorkspaceJobService.AskToSave | backend_service/workflow_supervision.py:127-136 | under the lock a running training is asked to save |
| JobService.WorkspaceJobService.Reconcile | backend_service/workflow_supervision.py:151-158 | what is unfinished after the scheduler stopped is interrupted |
| Repetition.RepeatInTwo | backend_service/pilot_sampler.py:121-139 | a repeated step can be cut anywhere |
| PilotSampling.DrawReady | backend_service/pilot_sampler.py:122-139 | a draw keeps order a permutation and consumed = epoch * count + position, and its crop lies inside the image |
| PilotSampling.DrawInTwo | backend_service/pilot_sampler.py:112-147 | drawing a and then b crops draws the same as a + b |
| PilotSampling.EpochVisitsAll | backend_service/pilot_sampler.py:123-138 | from an epoch's start or end the next epoch visits every index once |
| PilotSampling.EveryEpochVisitsAll | backend_service/pilot_sampler.py:48-138 | each epoch of a new sampler visits every index exactly once |
| PilotSampling.LoadableExactly | backend_service/pilot_sampler.py:67-110 | loading accepts exactly the snapshots of valid states of the same data and seed and restores them |
| PilotEpochs.LoadsExactly | backend_service/pilot_sampler.py:81-110 | exactly when a snapshot is loaded, in numbers |
| PilotEpochs.StreamIsEpochs | backend_service/pilot_sampler.py:48-139 | what a new sampler draws in some epochs is what shuffling and reading through, again and again, gives from the seeded generator, offsets included |
| PilotTraining.PilotSampler.LoadStateDict | backend_service/pilot_sampler.py:81-110 | an incompatible snapshot is refused and changes nothing |
| PilotTraining.PilotSampler.NextBatch | backend_service/pilot_sampler.py:112-147 | a batch draws exactly the specified crops, or fails leaving the exact prior state; its rollback is never refused |
| PilotTraining.PilotTrainingSession.TrainingStep | backend_service/pilot_training_state.py:173-228 | a step draws the batches of its physical size; a broken one leaves the batches it read consumed and is off schedule exactly when there is one |
| PilotTraining.StepIsOneDraw | backend_service/pilot_training_state.py:173-228 | the batches of a step are one draw of sixteen crops whatever the physical batch size |
| PilotTraining.BrokenStepIsRefused | backend_service/pilot_training_state.py:117-126 | a checkpoint of what a broken step leaves is refused on resumption exactly when the step had consumed a batch; otherwise it is accepted as the state the step started from |
| PilotTraining.CheckpointResumes | backend_service/pilot_training_state.py:130-153 | a checkpoint of a complete step is always accepted and restores its state |
| PilotTraining.StoppingChangesNothing | backend_service/pilot_training_state.py:117-248 | over any stops, failures, crashes and resumptions each checkpoint and session holds what training without a stop would hold, 16 samples a step |
| CheckpointRetention.LastThreeAreBest | backend_service/training_checkpoints.py:57-68 | the last three of the sorted measured items are those that fewer than three outrank |
| CheckpointRetention.RetainedKeeps | backend_service/training_checkpoints.py:52-75 | a save's selection is the declarative rule over its candidates |
| CheckpointRetention.CandidatesDecide | backend_service/training_checkpoints.py:52-75 | comparing with the current index decides like comparing with the whole history |
| CheckpointRetention.PublishedIsKept | backend_service/training_checkpoints.py:52-75 | after any saves the index is the history cut down to latest, pinned and three best, in order |
| CheckpointRetention.IndexHolds | backend_service/training_checkpoints.py:52-75 | membership in the index, and at most four unpinned entries |
| CheckpointRetention.IndexIsValid | schemas/checkpoints.py:42-55 | a published index passes the index's own checks |
| CheckpointRanking.KeptExactly | backend_service/training_checkpoints.py:52-75 | after any saves a checkpoint is kept exactly when it is the latest, pinned, or measured with fewer than three above it by recovery, psnr, ssim, step and identifier |
| CheckpointRanking.BestRecoveryStays | backend_service/training_checkpoints.py:57-68 | kept when fewer than three others recover as well, dropped when three recover better |
| CheckpointPublication.CheckpointDirectory.SaveCheckpoint | backend_service/training_checkpoints.py:117-199 | a save cut after any step leaves the specified directory |
| CheckpointPublication.CutToWhole | backend_service/training_checkpoints.py:138-199 | wherever a save is cut the index is the old or new one and its entries are whole |
| CheckpointPublication.EveryEntryIsWhole | backend_service/training_checkpoints.py:117-199 | over any cut saves every index entry names a completed directory |
| CheckpointPublication.BestStayLoadable | backend_service/training_checkpoints.py:52-199 | the best, latest and pinned checkpoints of all finished saves are loadable at every moment |
| PilotLedger.AllocationsSum | schemas/pilot_budget.py:109-117 | allocations always sum to 86400 |
| PilotLedger.EffectiveAllocations | schemas/pilot_budget.py:109-117 | the loop gives each stage's allocation after transfers |
| PilotLedger.ConsistentSessions | schemas/pilot_budget.py:134-179 | the sequential validator decides exactly the declarative rule |
| PilotLedger.TurnsAreRule | schemas/pilot_budget.py:146-178 | checks of neighbours and running totals are the rule over all pairs and prefixes |
| PilotBudget.StagesAddUp | backend_service/pilot_budget.py:27-54 | stage spending adds up to project spending |
| PilotBudget.TransferKeeps | backend_service/pilot_budget_records.py:105-139 | a transfer that passes its check is saved exactly when there is room and the source stays nonnegative |
| PilotBudget.AttestKeeps | backend_service/pilot_budget_records.py:36-102 | an attested insertion that passes its checks is saved exactly when there is room and no session starts at that instant |
| PilotBudget.TransferCanFail | backend_service/pilot_budget_records.py:123-138 | a transfer of half a millionth of a second that passes its check and is not saved |
| PilotBudget.EqualStartIsZeroLength | backend_service/pilot_budget_records.py:66-72 | a recorded session that starts at the attested instant and does not overlap has zero length |
| PilotBudget.AttestationCanFail | backend_service/pilot_budget_records.py:36-102 | a sound attested session that passes its checks and is not saved |
| PilotBudget.StartKeeps | backend_service/pilot_budget.py:102-147 | a start that passes its checks is saved exactly when there is room and it is not before the last end |
| PilotBudget.LastContinues | backend_service/pilot_budget.py:165-193 | observing and stopping always keep the ledger valid |
| PilotBudget.WithinCaps | schemas/pilot_budget.py:134-179 | without overruns project and stage spending stay within their caps |
| PilotOutcomes.ConsumedIsUsed | backend_service/pilot_budget.py:27-36 | time used and held are the sums over the sessions of a stage, or all |
| PilotOutcomes.AllocationIs | schemas/pilot_budget.py:109-117 | a stage has its 2, 14, 4 or 4 hours, what transfers brought, less what they took |
| PilotOutcomes.RemainingIsLeft | backend_service/pilot_budget.py:127-131 | what is left is the rest of the day or of the stage, whichever is less |
| PilotOutcomes.StartsExactly | backend_service/pilot_budget.py:114-134 | exactly when a session may start |
| PilotOutcomes.StartedIs | backend_service/pilot_budget.py:135-144 | its record, with the save and power-off times 300 and 120 seconds before the deadline |
| PilotOutcomes.AttestsExactly | backend_service/pilot_budget_records.py:46-81 | exactly when a past run may be attested |
| PilotOutcomes.AttestedIs | backend_service/pilot_budget_records.py:82-95 | its record |
| PilotOutcomes.TransfersExactly | backend_service/pilot_budget_records.py:112-129 | exactly when a transfer may be made |
| PilotOutcomes.ActiveIs | backend_service/pilot_budget.py:91-99 | the session that is observed and stopped is the one that still runs |
| PilotOutcomes.ValidIsSound | schemas/pilot_budget.py:21-70 | which session records with the fixed reserves are valid, by kind |
| PilotOutcomes.ValidLedgerIs | schemas/pilot_budget.py:134-179 | what every published ledger is |
| PilotOperations.PilotBudgetStore.Save | backend_service/pilot_budget_storage.py:84-98 | only a valid ledger is published |
| PilotOperations.PilotBudgetStore.StartSession | backend_service/pilot_budget.py:102-147 | when a session is refused, invalid or saved, and the saved ledger |
| PilotOperations.PilotBudgetStore.AttestClosedSession | backend_service/pilot_budget_records.py:36-102 | the same for an attested session |
| PilotOperations.PilotBudgetStore.TransferAllocation | backend_service/pilot_budget_records.py:105-139 | the same for a transfer |
| PilotOperations.PilotBudgetStore.ObserveSession | backend_service/pilot_budget.py:165-175 | the same for an observation |
| PilotOperations.PilotBudgetStore.ConfirmStopped | backend_service/pilot_budget.py:178-193 | the same for a confirmed stop; a clock that went back cannot erase time |
| ProofBudget.ProofBudget.Reconcile | backend_service/training_budget.py:88-97 | a crashed operation is charged its full reservation |
| ProofBudget.ProofBudget.Enter | backend_service/training_budget.py:123-184 | exactly when an operation is admitted, and the reservation it saves |
| ProofBudget.ProofBudget.Exit | backend_service/training_budget.py:192-214 | a clean exit charges the elapsed time and frees the reservation |
| ProofBudget.ChargesCoverUse | backend_service/training_budget_records.py:37-48 | over any run the total is the sum of experiments, at most two exist, and charges exceed use by exactly what crashed operations left unused of their reservations, so they cover it when crashes kept within them |
| ProofBudget.CapsHold | backend_service/training_budget.py:163-168 | while clean exits stay within their reservations, totals with open reservations stay within 14400 and 7200 |
| ProofBudget.CapsHoldExactly | backend_service/training_budget.py:163-205 | after any run no total exceeds its cap exactly when every clean exit of the run stayed within its reservation |
| ProofBudget.OverrunThenAnother | backend_service/training_budget.py:163-166 | a run with an overrun after which another experiment is admitted |
| ProofBudget.NothingAdmittedAtCaps | backend_service/training_budget.py:146-168 | nothing is admitted at the caps; below them a resumption is |
| ProofBudget.AdmittedExactly | backend_service/training_budget.py:146-168 | an operation is admitted exactly when time is left and it resumes or may retry a known experiment or begins one of two |
| ProofBudget.NameIs | backend_service/training_budget_records.py:10-16 | the names experiments may have |
| ProofBudget.HoldingIs | backend_service/training_budget.py:156-174 | it reserves exactly the rest of the project or of its experiment |
| ProofBudget.SettledIs | backend_service/training_budget.py:88-97 | a charge adds to the project and to one experiment and frees the reservation |
| DatasetStaging.RecoveryClears | backend_service/dataset_storage_ops.py:99-126 | from an orderly directory, listed in any order, recovery removes all run leftovers and nothing else |
| DatasetStaging.OneMarker | backend_service/dataset_storage_ops.py:72-96 | a marked run is removed, stage before marker, and order remains |
| DatasetStaging.RecoveryClearsExactly | backend_service/dataset_storage_ops.py:18-33 | recovery clears a directory in every listing order exactly when it is orderly, which is what the marker-before-stage order is for |
| DatasetStaging.NamesAre | backend_service/dataset_storage_ops.py:99-126 | the names of runs, markers and pending markers |
| DatasetStaging.OwnerRecordIs | backend_service/dataset_storage_ops.py:74-88 | what an ownership record is |
| DatasetWriting.Storage.RecoverStaging | backend_service/dataset_storage_ops.py:99-126 | the recovery loop, with only orderly states on the way |
| DatasetWriting.Storage.RemoveOwnedStage | backend_service/dataset_storage_ops.py:72-96 | only a marked stage of this user is removed |
| DatasetWriting.DatasetWriter.CreateOwnerMarker | backend_service/dataset_storage_ops.py:18-33 | a complete marker appears before a stage can exist, and no pending marker stays |
| DatasetWriting.DatasetWriter.Enter | backend_service/dataset_storage.py:48-84 | entering leaves a marked stage or, on reliable storage, nothing |
| DatasetWriting.DatasetWriter.ReserveWrite | backend_service/dataset_storage.py:105-123 | exactly when bytes are authorized, within the run's limit |
| DatasetWriting.DatasetWriter.WriteBytes | backend_service/dataset_storage.py:125-146 | bytes written never exceed bytes authorized |
| DatasetWriting.DatasetWriter.Publish | backend_service/dataset_storage.py:201-218 | a stage is published once and never over an existing revision |
| DatasetWriting.DatasetWriter.Exit | backend_service/dataset_storage.py:92-103 | published revisions stay and the run's stage goes |
| DatasetWriting.CrashRecovers | backend_service/dataset_storage.py:48-218 | at every moment of a run's history a crash is recovered, a stage has its marker and no pending marker, and published revisions remain |
| PngChunks.ReadsExactlyWritten | backend_service/image_validation.py:97-115 | bytes read as chunks exactly when they are those chunks written |
| PngHeader.OrderIsShape | backend_service/image_validation.py:105-167 | chunk-by-chunk acceptance is the global shape: one leading header, contiguous pixels, palette and color once before them, one empty final end |
| PngHeader.CheckChunk | backend_service/image_validation.py:105-161 | a chunk passes exactly when it can follow those before it |
| PngWalk.ReadHeader | backend_service/image_validation.py:87-180 | the loop accepts exactly acceptable chunk lists, with their dimensions, mode and names |
| PngWalk.InspectPng | backend_service/image_validation.py:275-281 | a PNG file is accepted exactly when it fits the limit and is the signature followed by a written acceptable list |
| PngOutcomes.NamesAre | backend_service/image_validation.py:105-150 | the chunk names and the signature, as texts |
| PngOutcomes.GoodHeaderIs | backend_service/image_validation.py:117-128 | which headers are good, in numbers |
| PngOutcomes.HeaderIs | backend_service/image_validation.py:174-180 | the width, height, mode and names that are reported |
| PngOutcomes.PlainNameIs | backend_service/image_validation.py:105-113 | which chunk names are allowed |
| PngOutcomes.ForbiddenIs | backend_service/image_validation.py:146-149 | which chunks are not supported |
| PngOutcomes.EarlyIs | backend_service/image_validation.py:135-152 | which chunks come once and before the pixels |
| PngOutcomes.GoodContentIs | backend_service/image_validation.py:135-160 | what palettes and color declarations must hold |
| PngOutcomes.HeaderBudgetIs | backend_service/image_validation.py:129-131 | the bytes a header's pixels must decompress to, for each color type |
| PngInterlace.ExactlyOnePass | backend_service/image_png_stream.py:11-23 | every pixel belongs to exactly one of the seven passes |
| PngInterlace.ExtentCounts | backend_service/image_png_stream.py:26-27 | the pass extent formula counts the coordinates a pass takes |
| PngInterlace.AreasSum | backend_service/image_png_stream.py:11-29 | the pass areas sum to width times height |
| PngInterlace.ExpectedBytes | backend_service/image_png_stream.py:24-29 | the loop adds up the bytes of the nonempty passes |
| PngInterlace.BudgetIsImageAndRows | backend_service/image_png_stream.py:9-31 | the budget is channels * width * height plus one byte for each row of each nonempty pass |
| PngOutcomes.BudgetIs | backend_service/image_png_stream.py:9-31 | without interlacing height times 1 + width * channels; with it the channel bytes and the rows of the seven passes, counted from their starts and steps |

## Left out

- JobQueueTheorems.SecretsOnlyForWaitingJobs: stated for a service that is not closing, because interrupting jobs at shutdown does not discard their secrets; SecretsKeptExactly gives the exact condition.
- ProofBudget.CapsHold: holds while clean exits stay within their reservation, which the source does not check; CapsHoldExactly says that this is the exact condition. After an overrun nothing more is admitted for the experiment or the project whose cap was passed, and another experiment still may be.
- PilotBudget.WithinCaps: holds for sessions stopped by their deadline; an overrun is charged without a cap, as in the source, and the bound carries the source's tolerance of 0.000001 seconds.
- PngWalk.InspectPng: the PNG branch of `inspect_header`; a file that starts as a JPEG goes to another parser, which is not part of this model.
- PngWalk.ReadHeader: judges the compressed pixel stream once, at its end; the source feeds it chunk by chunk and may refuse earlier, with the same outcome.
- CodeDistance.UniqueDecoding: says what the block decoder is relied on for; the encoder and the decoder of the reedsolo library are not part of this model and enter as the contracts `Encodes` and `Corrects`.
- JobQueueRetries.RetryIsAnsweredExactly: takes digests of requests to be free of collisions and the keys that processes draw at random never to repeat.
- Cryptography (Argon2id, the AEAD, SHA-256), CRC, zlib, UTF-8, color profiles and the random generator are parameters with their laws; none is modelled inside.
- Memory errors, floating-point rounding and the float32 and float64 types of votes and clocks: votes and times are exact reals, and a logit is a real, so the check for finite values has no counterpart.
- Real files: descriptors, symbolic links, permissions, fsync and disk space. Storage is a map of names with atomic operations; a recursive removal is one step in the staging model and two in the checkpoint model.
- Temporary files of atomic JSON writes, and the contents of checkpoints, manifests and metadata.
- Threads and locks: what the source does under the queue lock is one step, and so is each flag it raises without the lock; within a step a flag is read once. One process owns the queue, and the scheduler has stopped when shutdown reconciles.
- Job progress ratios, metrics, results, frozen settings and failure messages; the 4096-byte limit of `put`, which requests of at most 1024 password and 1024 message bytes cannot reach; retry wake-ups and timeouts.
- Decoded texts and their expiry, upload sessions, the dataset cache and its partial downloads, the time limit of event streams, and the older application's jobs that a reset message may add.
- Training itself: networks, losses, optimizers, critics and their state; a session is its step count and its sampler.
- The forking of a checkpoint into another experiment, whose position check is that of a resumption.
- The file-by-file limit of `write_stream`, the check of externally written files and the reuse of existing revisions.
- Instance identifiers and the wall-clock anchoring of deadlines in the instance ledger; the save reserve within a proof operation.
- JPEG headers, the content rules of color profile chunks, decoding and color conversion.
- HTTP routes, command lines, logging, subprocess handling and the browser code.
