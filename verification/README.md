# Verified models of cosmos-curator's schedulers, trackers and drivers

This project states what seven parts of cosmos-curator promise and proves it of models that follow their code.
`dafny verify dfyconfig.toml` checks everything. Nothing here executes the Python program.

**Two-stage captioning** (`CaptionSpec`, `CaptionRequests`, `CaptionEngine`, `PhasedCaptioner`, `InflightCaptioner`,
`VllmCaption`, `AsyncCaptioner`). `CaptionSpec` says what captioning one window means: ask the engine once and, when
the window has a stage-2 prompt, ask again with the refined inputs and add up the tokens. The phased driver, the
in-flight queue over a stepping engine and the asyncio driver are imperative models whose results equal that
specification, whatever the batch size, the in-flight limit and the order in which the engine finishes. The engine is
a class whose `Step` finishes any subset of its requests; it is assumed to answer as a function of a request's inputs
and to finish something within finitely many steps (`patience`). A plugin hook that raises is a `None`; the
synchronous drivers then raise as a whole. `Right`, `Cost` and `Spent` say the same in the terms of the engine and the
plugin alone, and the engine keeps a record of what it has answered, against which the tokens of the results are
summed. The engine outlives the call, and an exception can leave requests in it; a later call then raises when it is
handed one of them, which is the one way in which its answer can depend on the schedule, and the contract says exactly
that.

In the asyncio driver how each attempt at the engine goes is an input, `Runtime.attempt`, by window, phase and number;
the order in which tasks complete is free. `FateOf` says how each window ends: with its one or two answers, failed in some
phase, or lost to a dead engine. The driver raises exactly when some window is lost, and otherwise its results and its
callbacks are those fates. Its documentation speaks of up to `max_retries` attempts; the code, and so the model, makes
one attempt even when that bound is below one.

**NormalCrafter** (`TemporalWindows`, `LatentBlend`, `Padding`, `NormalChunks`, `NormalCrafter`). The window plan with
its clamped tail; blending in place into a buffer whose frames start out as `Uninitialised`, against the closed form
"combination of the windows' outputs with coefficients fixed by the plan"; padding and unpadding; the chunk contract
between the runtime and the model that checks it; and the whole pass put together. Latents are exact reals, one per
frame, since every element of a frame is blended with the same weights. The chunk checks accept empty chunks after the
last frame, and the contract says so.

**Stable text detector** (`BoxOverlap`, `TextTracks`, `StableTextDetector`). A pure tracker says what the tracks are; the
detector, which appends to track objects in place, is proved against it. In exact rationals the average-overlap test
can never reject a track under the default thresholds, and `StabilityNeverRejectsIff` shows that the matching threshold
is exactly where the test starts to matter.

**Job driver** (`ProgressFile`, `JobBooks`, `JobCommands`, `JobDriver`). Workers with bounded retries, a FIFO of jobs, and
a progress file treated as text: what is appended, and what is read back by the next process. The service is a class that
answers commands at will and keeps a list of them; every command sent is accounted for by the launches and polls. A
process may crash before any worker's turn and between a success and its line in the file. `Sessions` chains any number of
runs.

**Progress thread** (`ProgressLog`, `ProgressThread`). The thread's actions, one at a time, interleaved with the
producer of log lines, the pipeline's failure, the stop event and a termination, in file mode.

**Colour histograms** (`ColorHistogram`). The flat scatter over encoded indices against the plain count per frame and
cell, and the banded look-up of similarities.

**Semantic filter** (`BraceScan`, `WindowVerdicts`). The scan for the first braced block, and the two evaluators, whose
results are specified over the windows as a set, so that their order plays no part.

`Arith` and `Base` hold shared facts and small types.

## Model

| member | source | states |
|---|---|---|
| `CaptionSpec.BatchSpecAppend` | cosmos_curator/models/vllm_interface.py:482-655 | the result list is per item and in input order: the list for two batches put together is the two lists put together, and it raises exactly when one of them does |
| `CaptionSpec.ItemSpecIsRight` | cosmos_curator/models/vllm_interface.py:536-561 | in the terms of engine and plugin alone: the result reports the text and finish reason of the last of the window's one or two generations, its tokens are the sums of what both cost, and there is none exactly where decoding or refining raises |
| `CaptionSpec.SpentIsCost` | cosmos_curator/models/vllm_interface.py:556-558 | summed over the windows, the tokens in the results are the tokens generated for all the requests |
| `CaptionSpec.TokensAddUp` | cosmos_curator/models/vllm_interface.py:638-642 | and in whatever order the requests were answered |
| `CaptionSpec.RequestedInTwoPasses` | cosmos_curator/models/vllm_interface.py:535-558 | asking for all own inputs first and then for all refined ones asks for the same as window by window |
| `CaptionSpec.InInputOrder` | cosmos_curator/models/vllm_interface.py:655 | a dictionary that holds every window's right result, whatever order it was filled in, reads back as the specified list |
| `CaptionRequests.CaptionRequest.Populate` | cosmos_curator/models/vllm_interface.py:472-476 | a finished output writes caption, token counts and finish reason into its request (no outputs: zero tokens, no reason); false exactly where the decoder raises |
| `CaptionRequests.MakeWindowResult` | cosmos_curator/models/vllm_interface.py:173-179 | a missing or empty caption becomes the unknown-caption text; reason and accumulated tokens are passed on |
| `CaptionRequests.ProcessVllmOutput` | cosmos_curator/models/vllm_interface.py:445-479 | every finished output fills in the one in-flight request with its id, and these are returned in output order; it raises exactly at an output with an unknown id or one that cannot be decoded |
| `CaptionRequests.FinishedDistinct` | cosmos_curator/models/vllm_interface.py:466-479 | no request is reported finished twice by one step |
| `CaptionRequests.MakeRequests` | cosmos_curator/models/vllm_interface.py:603-612 | one request per window with distinct new ids, and the index leads each id back to its window |
| `CaptionRequests.MilestonesGrow` | cosmos_curator/models/vllm_interface.py:614-655 | each counted answer or produced result moves the call strictly closer to its end: the measure behind termination of the in-flight and asyncio drivers |
| `PhasedCaptioner.SplitByChunkSize` | cosmos_curator/core/utils/misc/grouping.py:36-66 | the chunks are nonempty, as large as asked for except the last, and together are the input in order |
| `PhasedCaptioner.VllmGenerate` | cosmos_curator/models/vllm_interface.py:411-442 | for every batch size, the engine is asked each request's own inputs once, in order, and there is one output per request, in request order, under the request's own id and answering its own inputs |
| `PhasedCaptioner.ProcessRequests` | cosmos_curator/models/vllm_interface.py:523-533 | all requests come back in the order given, each holding the answer to its own inputs; raises only if some answer cannot be decoded |
| `PhasedCaptioner.AccountFirst` | cosmos_curator/models/vllm_interface.py:538-547 | every window's first answer is counted; windows without a stage-2 prompt have their right result, and exactly the others are due for refinement, in order |
| `PhasedCaptioner.RefineAll` | cosmos_curator/models/vllm_interface.py:549-552 | one refinement request per waiting window, built from its own inputs, caption and prompt, with a new id that leads to the same window |
| `PhasedCaptioner.RefinedAsked` | cosmos_curator/models/vllm_interface.py:549-552 | every window with a prompt has exactly one refinement request, and together they ask for exactly the refined inputs |
| `PhasedCaptioner.AccountSecond` | cosmos_curator/models/vllm_interface.py:554-558 | second answers complete the refined windows with the summed tokens and leave the finished windows alone |
| `PhasedCaptioner.RefinementPass` | cosmos_curator/models/vllm_interface.py:549-561 | after the first pass, the refinement pass asks for exactly the refinements and yields the specified list, or raises exactly when the specification does |
| `PhasedCaptioner.CaptionNoInflightBatching` | cosmos_curator/models/vllm_interface.py:482-561 | the phased driver returns exactly the per-item specification in input order, for every batch size; the engine was asked exactly what the windows ask for, and the results account for exactly the tokens it generated |
| `CaptionEngine.Engine.Step` | cosmos_curator/models/vllm_interface.py:624 | the engine as assumed: any subset of the running requests finishes, in any order, each output a function of its own request's inputs, and is entered in the record of what has been answered; a step that finishes nothing uses up patience |
| `InflightCaptioner.Submit` | cosmos_curator/models/vllm_interface.py:618-622 | submitting the oldest queued request raises the in-flight count by one and keeps every open request in exactly one place |
| `InflightCaptioner.SomethingInFlight` | cosmos_curator/models/vllm_interface.py:614-624 | whenever the engine is stepped, some request of this call is in flight |
| `InflightCaptioner.MirrorsAfter` | cosmos_curator/models/vllm_interface.py:624-634 | a step that finishes only in-flight requests leaves the engine running the other ones and whatever it was running before the call |
| `InflightCaptioner.DeleteFinished` | cosmos_curator/models/vllm_interface.py:633-634 | every finished request is there to be deleted, and exactly those are gone |
| `InflightCaptioner.TakeFinished` | cosmos_curator/models/vllm_interface.py:626-631 | the finished requests are open windows' own requests and hold the answers to the inputs under which the engine ran them; it raises only for a window that cannot be captioned or a request left behind by an earlier call |
| `InflightCaptioner.Account` | cosmos_curator/models/vllm_interface.py:636-644 | counting the finished answers keeps one open request or one right result per window, and adds exactly their inputs to what has been answered |
| `InflightCaptioner.AnsweredOnce` | cosmos_curator/models/vllm_interface.py:636-644 | an answer for a window adds the inputs it was asked with, the own ones first and the refined ones second, and nothing else |
| `InflightCaptioner.QueueRefinements` | cosmos_curator/models/vllm_interface.py:646-653 | each window being refined goes over to its one new request; all other windows are untouched |
| `InflightCaptioner.PlacedAgain` | cosmos_curator/models/vllm_interface.py:633-653 | after a round, every open window's request is again in the queue or in flight, never in both, and nothing else is |
| `InflightCaptioner.Settle` | cosmos_curator/models/vllm_interface.py:624-653 | what an iteration does with a step's outputs keeps the partition of windows into queued, in flight and finished, never grows the in-flight set, and makes progress if the engine finished anything |
| `InflightCaptioner.AllDone` | cosmos_curator/models/vllm_interface.py:617 | the loop's exit test holds exactly when no window is open any more |
| `InflightCaptioner.Turn` | cosmos_curator/models/vllm_interface.py:617-653 | a whole loop iteration keeps all of that, keeps within the limit, comes closer to the end, and keeps the engine's record of answers in step with the books |
| `InflightCaptioner.GoingAccountable` | cosmos_curator/models/vllm_interface.py:614-655 | all that the engine is running was running before the call or belongs to a window of the call |
| `InflightCaptioner.FinallyDone` | cosmos_curator/models/vllm_interface.py:617-655 | at exit the engine is running exactly what it was before, every window has its right result, and what was answered is exactly what the windows ask for |
| `InflightCaptioner.CaptionInflightBatching` | cosmos_curator/models/vllm_interface.py:564-655 | for every completion order, every limit (0 for none) and any engine: a returned list is exactly the per-item specification in input order, the engine then runs what it ran before and has answered each window's own inputs and, with a stage-2 prompt, its refined ones, once each; the results account for exactly the tokens generated in the call; it raises exactly where the specification does or where the engine finishes a request left behind by an earlier exception; no more than the limit of its own requests run at once; and the loop ends |
| `VllmCaption.ResolveStage2Prompts` | cosmos_curator/models/vllm_interface.py:722-732 | no prompts without a list, otherwise the list itself, refused exactly when its length is not that of the inputs |
| `VllmCaption.Caption` | cosmos_curator/models/vllm_interface.py:658-719 | schedule independence: result and error depend on the engine, the inputs and the prompts only, not on the driver, the batch size, a legal limit or the completion order, except that a request left behind by an earlier exception can make the in-flight driver raise; a call that answers leaves nothing behind, its results are right window by window, and their tokens sum to what the engine generated in the call |
| `VllmCaption.CaptionGroups` | cosmos_curator/pipelines/video/captioning/vllm_caption_stage.py:1163-1215 | one engine kept over call after call gives each call its expected answer, up to the first exception |
| `AsyncCaptioner.Captioner.DriveRequest` | cosmos_curator/models/vllm_interface.py:878-933 | makes one attempt where the bound is below two, and otherwise no more than the bound; goes on exactly past attempts that raise or yield no outputs; fails only when the bound is reached or an answer cannot be decoded; writes the answer to its own inputs into a request that completes |
| `AsyncCaptioner.DriveOutcome` | cosmos_curator/models/vllm_interface.py:889-933 | a request completes exactly when some attempt within the bound yields a decodable answer before any finds the engine dead, is lost exactly when the engine is found dead first, and otherwise fails |
| `AsyncCaptioner.OutcomeDecides` | cosmos_curator/models/vllm_interface.py:833-876 | what the outcome of a window's one outstanding request means for the window: lost, failed in that phase with the tokens so far, answered with the summed tokens, or due for stage 2 |
| `AsyncCaptioner.AnsweredIff` | cosmos_curator/models/vllm_interface.py:833-876 | a window with inputs is answered exactly when all its requests are served within their retries and its specification does not raise, and then with the specified result |
| `AsyncCaptioner.FateIsDue` | cosmos_curator/models/vllm_interface.py:833-876 | what each window is due, in the terms of attempts, engine and plugin alone: the tokens of its requests that completed, also where it fails afterwards, the last answer or the unknown caption, and the phase in which it fails |
| `AsyncCaptioner.LostMeans` | cosmos_curator/models/vllm_interface.py:843-846 | a window is lost exactly when one of its requests finds the engine dead before it is served |
| `AsyncCaptioner.ServedIsRight` | cosmos_curator/models/vllm_interface.py:878-933 | a window whose requests are each served at some allowed attempt before any finds the engine dead, and which has a right result, gets it |
| `AsyncCaptioner.FiredAgain` | cosmos_curator/models/vllm_interface.py:935-948 | firing a callback for an entry that is new keeps one call per entry |
| `AsyncCaptioner.Captioner.EmitFinal` | cosmos_curator/models/vllm_interface.py:935-940 | records one window's result with the summed tokens and fires its callback once |
| `AsyncCaptioner.Captioner.EmitUnknown` | cosmos_curator/models/vllm_interface.py:942-948 | the unknown result keeps the tokens counted so far, and its callback fires once |
| `AsyncCaptioner.Captioner.Take` | cosmos_curator/models/vllm_interface.py:833-843 | a completed task belongs to exactly one open window, which then has neither task nor result |
| `AsyncCaptioner.Captioner.CloseFailed` | cosmos_curator/models/vllm_interface.py:841-848 | a window that is due to fail gets exactly one result and one error report, with the stage-1 tokens if it had got that far and zero otherwise |
| `AsyncCaptioner.Captioner.Refine` | cosmos_curator/models/vllm_interface.py:864-876 | a window with a stage-2 prompt goes on with exactly one new task, or fails in the build phase |
| `AsyncCaptioner.Captioner.HandleCompleted` | cosmos_curator/models/vllm_interface.py:833-876 | between handlers each yielded window has exactly one pending task or exactly one right result; a failure is reported once in its own phase; the engine's death is passed on exactly when the task met it; other tasks are untouched; each handler makes progress |
| `AsyncCaptioner.Captioner.HandleDone` | cosmos_curator/models/vllm_interface.py:810-813 | the same over any set of completed tasks in any order, up to the first that met a dead engine |
| `AsyncCaptioner.Captioner.Yield` | cosmos_curator/models/vllm_interface.py:797-809 | an empty input is answered at once without an error report, any other gets one stage-1 task |
| `AsyncCaptioner.Captioner.Run` | cosmos_curator/models/vllm_interface.py:785-816 | for every completion order: raises exactly when some window is lost to a dead engine; otherwise each window has the result due to it and the failed ones are exactly those whose attempts, decoding or building fail; each callback fires at most once per window and truthfully, even when the run raises; no task outlives it |
| `AsyncCaptioner.GoesWell` | cosmos_curator/models/vllm_interface.py:785-816 | when every window has inputs, is served within its retries and can be captioned, no window fails or is lost and every result is the specified one |
| `AsyncCaptioner.CaptionAsync` | cosmos_curator/models/vllm_interface.py:973-1036 | raises exactly when a window is lost to a dead engine; otherwise one completion call per window with its due result, whose tokens are those of its completed requests, and one error call for exactly the windows that fail, with their phase; a window whose requests are each served within `max_retries` attempts and which has a right result gets it and no error call; when that is so for all, the same list as the phased and the in-flight driver, accounting for exactly the tokens generated |
| `TemporalWindows.RegularShape` | cosmos_curator/models/normalcrafter.py:601-603 | the regular windows are exactly those at multiples of the stride that fit |
| `TemporalWindows.PlanCount` | cosmos_curator/models/normalcrafter.py:592-606 | the number of windows is one plus the rounded-up quotient of the remaining frames by the stride |
| `TemporalWindows.PlanShape` | cosmos_curator/models/normalcrafter.py:592-606 | all windows have full length, the first starts at 0, the last ends at the end, starts strictly increase, neighbours overlap by at least size minus stride and less than size |
| `TemporalWindows.PlanFewest` | cosmos_curator/models/normalcrafter.py:592-606 | no covering with gaps between starts of at most the stride has fewer windows |
| `LatentBlend.WeightsAreEvenRamp` | cosmos_curator/models/normalcrafter.py:407-416 | the interior points of the linear ramp from 1 to 0 are evenly spaced and mirror each other |
| `LatentBlend.CombinationStep` | cosmos_curator/models/normalcrafter.py:395-421 | one more window moves each frame towards that window's value by the share it does not keep |
| `LatentBlend.CoefficientSign` | cosmos_curator/models/normalcrafter.py:388-426 | a window's final coefficient at a frame is positive where it covers the frame and zero elsewhere, also where three windows overlap at the tail |
| `LatentBlend.PartitionOfUnity` | cosmos_curator/models/normalcrafter.py:388-426 | the coefficients at every written frame sum to one |
| `LatentBlend.BlendBounded` | cosmos_curator/models/normalcrafter.py:388-426 | blended values stay within any bounds of the covering windows' values |
| `LatentBlend.FramesSettle` | cosmos_curator/models/normalcrafter.py:395-421 | a frame before the current window's start never changes again |
| `LatentBlend.BlendIsConvex` | cosmos_curator/models/normalcrafter.py:388-426 | for the actual plan, each frame is a convex combination of exactly the windows covering it, with coefficients fixed by the plan |
| `LatentBlend.ReadFrames` | cosmos_curator/models/normalcrafter.py:398 | the overlap is read only where it has been written |
| `LatentBlend.BlendOverlap` | cosmos_curator/models/normalcrafter.py:407-417 | the front of the window becomes the weighted mix of old prediction and window, the rest is unchanged |
| `LatentBlend.FadedEvenly` | cosmos_curator/models/normalcrafter.py:407-417 | fading moves from the old value to the new one by equal steps |
| `LatentBlend.HoldsNext` | cosmos_curator/models/normalcrafter.py:407-420 | what a window does to the buffer is what the closed form of the blending says |
| `LatentBlend.CopyFrames` | cosmos_curator/models/normalcrafter.py:420 | exactly the window's frames of the buffer are overwritten |
| `LatentBlend.ProcessWindow` | cosmos_curator/models/normalcrafter.py:395-421 | one window in place: it is generated from the frames that the buffer holds on the overlap, or from nothing in the first window; in the overlap the old frames fade out in even steps, behind it the window is new, and no other frame is touched; so all frames written hold the combination due to them |
| `LatentBlend.PredictLatents` | cosmos_curator/models/normalcrafter.py:376-426 | the whole pass in place on an uninitialised buffer: an error exactly when there are too few frames; otherwise the buffer goes from window to window as it should, each window generated from the buffer as it stood then, and ends with every frame written with the combination due to it |
| `Padding.PaddedSizes` | cosmos_curator/models/normalcrafter.py:641-652 | padded sides are the least multiples that fit, the padding split evenly with an odd pixel at the bottom and right |
| `Padding.ExpandShape` | cosmos_curator/models/normalcrafter.py:655-672 | the padded frame has the frame in its place and the fill colour around it |
| `Padding.PadRoundTrip` | cosmos_curator/models/normalcrafter.py:655-684 | unpadding a padded frame restores it |
| `Padding.UnpadShape` | cosmos_curator/models/normalcrafter.py:675-684 | unpadding anything of the padded size gives the original size: the centre part |
| `Padding.ShapeErrors` | cosmos_curator/models/normalcrafter.py:617-631 | each error of the latent shape has its own cause, channels being looked at first |
| `Padding.PaddedFitsLatentGrid` | cosmos_curator/models/normalcrafter.py:609-638 | when the VAE factor divides 64 the divisibility check cannot fail, and the latent grid has 14 frames of the image's channels and times the factor is the padded frame |
| `NormalChunks.ValidInputMeans` | cosmos_curator/models/normalcrafter.py:539-550 | a clip is accepted exactly with 14 to the allowed number of frames, none empty; each error has its own cause |
| `NormalChunks.Infer` | cosmos_curator/models/normalcrafter.py:145-191 | for any runtime: no error exactly when the input is valid and every chunk was the next piece, of the right length and shape, up to the end; otherwise the error is that of the first failing check; the chunks delivered are the leading good ones, each frame normalised |
| `NormalChunks.FaultlessIsInPlace` | cosmos_curator/models/normalcrafter.py:156-173 | the checks on a chunk pass exactly when it is the next piece of the clip |
| `NormalChunks.FrameDeliveredOnce` | cosmos_curator/models/normalcrafter.py:156-191 | under that contract each frame is in exactly one chunk, at its own place |
| `NormalChunks.DecodedPixel` | cosmos_curator/models/normalcrafter.py:485-491 | each pixel of a decoded frame is that of its own padded image, beyond the padding |
| `NormalChunks.DecodeChunks` | cosmos_curator/models/normalcrafter.py:472-492 | the decoder's chunks are nonempty, contiguous, of the clip's frame size, and cover the prediction |
| `NormalChunks.InferClip` | cosmos_curator/models/normalcrafter.py:145-310 | producer and checker together: the only errors are those of the input, and every frame is delivered where it belongs |
| `NormalCrafter.StaysWithin` | cosmos_curator/models/normalcrafter.py:388-426 | for the real window size and stride, every frame of the prediction stays within the bounds of the windows covering it |
| `NormalCrafter.InferFrames` | cosmos_curator/models/normalcrafter.py:145-310 | the whole pass: refused for its input only; otherwise every frame is delivered where it belongs, decoded from a prediction that blends what the windows generated and stays within their bounds |
| `BoxOverlap.CornersOrdered` | cosmos_curator/models/paddle_ocr.py:69-77 | a bounding box never has its corners the wrong way round |
| `BoxOverlap.CornersBound` | cosmos_curator/models/paddle_ocr.py:69-77 | the bounding box contains every corner point and touches one on each side; anything but four points has the empty box |
| `BoxOverlap.TruncateTowardsZero` | cosmos_curator/models/paddle_ocr.py:73-76 | coordinates lose their fraction, towards zero |
| `BoxOverlap.IouSymmetric` | cosmos_curator/models/paddle_ocr.py:80-93 | overlap does not depend on the order of the boxes |
| `BoxOverlap.IntersectionFits` | cosmos_curator/models/paddle_ocr.py:85-93 | the intersection is no larger than either box |
| `BoxOverlap.IntersectionCounts` | cosmos_curator/models/paddle_ocr.py:85-89 | the intersection is the number of unit cells in both boxes |
| `BoxOverlap.IouCounts` | cosmos_curator/models/paddle_ocr.py:80-93 | the overlap is the number of cells in both boxes over the number in either, and 0 where there are none |
| `BoxOverlap.IouRange` | cosmos_curator/models/paddle_ocr.py:80-93 | overlap lies between 0 and 1 |
| `BoxOverlap.IouOne` | cosmos_curator/models/paddle_ocr.py:80-93 | overlap is 1 exactly for equal boxes of positive area |
| `TextTracks.TracksCoherent` | cosmos_curator/models/paddle_ocr.py:203-233 | over any frames, consecutive sightings of every track match by the threshold and are within the allowed gap |
| `TextTracks.SiftMembers` | cosmos_curator/models/paddle_ocr.py:207-220 | a track stays active exactly while its last sighting is no more than the allowed gap ago |
| `TextTracks.AverageAtLeast` | cosmos_curator/models/paddle_ocr.py:137-144 | the average overlap of such a track is at least the matching threshold |
| `TextTracks.AverageExtends` | cosmos_curator/models/paddle_ocr.py:137-144 | the average is that of the consecutive overlaps: one more sighting adds one overlap to it; a single sighting has 1 |
| `TextTracks.AdjustedMinMeans` | cosmos_curator/models/paddle_ocr.py:154 | enough sightings are at least one and as many as sampled frames fit the shortest duration |
| `TextTracks.ReportMembers` | cosmos_curator/models/paddle_ocr.py:146-179 | exactly the tracks that are long and steady enough are reported, each by its first and last frame and time and its number of sightings |
| `TextTracks.StabilityNeverRejects` | cosmos_curator/models/paddle_ocr.py:146-159 | with a stability threshold no higher than the matching one, as by default, exactly the tracks with enough sightings are reported |
| `TextTracks.StabilityNeverRejectsIff` | cosmos_curator/models/paddle_ocr.py:51-55 | that holds for all videos if and only if the stability threshold is no higher than the matching threshold |
| `TextTracks.DetectionsConserved` | cosmos_curator/models/paddle_ocr.py:203-233 | the sightings of all tracks are exactly the detections, each once |
| `StableTextDetector.TextTrack.Update` | cosmos_curator/models/paddle_ocr.py:128-132 | adds one sighting at the end of the track |
| `StableTextDetector.TextTrack.AverageStability` | cosmos_curator/models/paddle_ocr.py:137-144 | the average overlap of consecutive boxes, 1 for a single one |
| `StableTextDetector.TextTrack.CheckIfStable` | cosmos_curator/models/paddle_ocr.py:146-159 | stable exactly when long enough and of high enough average overlap |
| `StableTextDetector.FindMatch` | cosmos_curator/models/paddle_ocr.py:224-231 | finds the first active track that overlaps enough |
| `StableTextDetector.Detector.RetireTracks` | cosmos_curator/models/paddle_ocr.py:206-220 | drops exactly the tracks not seen for too long, in order, reporting those that are stable |
| `StableTextDetector.Detector.DetectOne` | cosmos_curator/models/paddle_ocr.py:221-233 | in place: the first matching track grows by the detection and no other changes, or a new track starts |
| `StableTextDetector.Detector.ProcessFrame` | cosmos_curator/models/paddle_ocr.py:203-233 | the in-place detector takes one step of the pure tracker |
| `StableTextDetector.Detector.Finalize` | cosmos_curator/models/paddle_ocr.py:235-246 | reports the stable ones among the remaining tracks |
| `StableTextDetector.Detector.Analyze` | cosmos_curator/models/paddle_ocr.py:248-253 | reports exactly the confirmed tracks of the pure tracker over all frames; with the default thresholds, one segment for each track with enough sightings and no others |
| `ProgressFile.ReadProgressFile` | examples/workflow/operate_nvcf_functions.py:267-276 | reads exactly the stripped nonblank lines |
| `ProgressFile.RecordAppends` | examples/workflow/operate_nvcf_functions.py:323-327 | appending a succeeded path adds exactly that entry, at the end |
| `ProgressFile.RecordedIffClean` | examples/workflow/operate_nvcf_functions.py:267-276 | an appended path is read back as itself if and only if it is nonempty, on one line and without white space around it |
| `JobBooks.FirstOccurrencesMembers` | examples/workflow/operate_nvcf_functions.py:284-294 | the jobs to be done are exactly the input paths not recorded yet |
| `JobBooks.FirstOccurrencesOrder` | examples/workflow/operate_nvcf_functions.py:288-292 | they stand in the order of their first occurrences |
| `JobBooks.LastEntryIs` | examples/workflow/operate_nvcf_functions.py:292 | a repeated path gets the number and the output of its last entry |
| `JobBooks.TakeConserves` | examples/workflow/operate_nvcf_functions.py:316-320 | giving the oldest pending job to an idle worker keeps every path in exactly one place with its launches accounted for |
| `JobBooks.RelaunchConserves` | examples/workflow/operate_nvcf_functions.py:253-263 | so does launching a failed job again, at most five launches in all |
| `JobBooks.ReleaseConserves` | examples/workflow/operate_nvcf_functions.py:247-260 | so does finishing a job, or giving it up at the fifth failure |
| `JobBooks.RecordConserves` | examples/workflow/operate_nvcf_functions.py:323-327 | so does recording a success |
| `JobBooks.AllSettled` | examples/workflow/operate_nvcf_functions.py:314 | when the loop condition is false every path has succeeded or been given up |
| `JobDriver.Worker.SubmitJob` | examples/workflow/operate_nvcf_functions.py:138-171 | sends invoke commands, one to six, until one is accepted; it raises only after the sixth |
| `JobDriver.Worker.AddJob` | examples/workflow/operate_nvcf_functions.py:189-195 | an idle worker takes the job and launches it, with one to six commands for its path |
| `JobDriver.Worker.CheckJobStatus` | examples/workflow/operate_nvcf_functions.py:204-233 | sends status commands, one to six, until an answer is understood, and raises only after the sixth; an in-progress answer uses up patience |
| `JobDriver.Worker.PollJob` | examples/workflow/operate_nvcf_functions.py:235-264 | succeeded exactly when the service says fulfilled; a failed or lost job is launched again exactly when it has failed fewer than five times and given up otherwise; an in-progress answer or an exception leaves the job as it is |
| `JobCommands.BoundedMeans` | examples/workflow/operate_nvcf_functions.py:138-233 | a launch or a poll sends one to six commands of its own kind for its own path, of which only the last can succeed, and raises only after six |
| `JobCommands.LaunchesCount` | examples/workflow/operate_nvcf_functions.py:173-187 | a path was launched as often as there are launches of it |
| `JobCommands.AllCommandsConcat` | examples/workflow/operate_nvcf_functions.py:138-233 | the commands of a series of calls are those of its parts, one after the other |
| `JobCommands.AccountsMore` | examples/workflow/operate_nvcf_functions.py:138-264 | so are their launches, and the calls stay within six commands each |
| `JobCommands.QuietMore` | examples/workflow/operate_nvcf_functions.py:164-166 | an exception is the end: all calls before the raising one went well |
| `JobDriver.Put` | examples/workflow/operate_nvcf_functions.py:292 | an ordered dictionary: a path already there keeps its position and takes the new job |
| `JobDriver.BuildInputList` | examples/workflow/operate_nvcf_functions.py:279-294 | the unrecorded paths, each once, in first-occurrence order, each with its last entry's job |
| `JobDriver.Driver.constructor` | examples/workflow/operate_nvcf_functions.py:309-312 | a run starts with every job pending, none launched, and the file as it is |
| `JobDriver.Driver.StartJob` | examples/workflow/operate_nvcf_functions.py:316-320 | the oldest pending job starts and no other, never one that is recorded; an exception means that six invoke commands in a row failed |
| `JobDriver.Driver.PollOnce` | examples/workflow/operate_nvcf_functions.py:321-323 | a path counts as succeeded exactly when the service says fulfilled; an exception means that six commands in a row failed |
| `JobDriver.Driver.RecordSuccess` | examples/workflow/operate_nvcf_functions.py:323-327 | the succeeded path is appended once, or the process crashes before |
| `JobDriver.Driver.PollWorker` | examples/workflow/operate_nvcf_functions.py:321-327 | the poll keeps the books and brings the run closer to its end; a success appends exactly its own path, unless the process crashes first, and nothing else is appended; an exception means that six commands in a row failed |
| `JobDriver.Driver.Round` | examples/workflow/operate_nvcf_functions.py:315-327 | one pass over the workers, which may crash before any turn, keeps the books and makes progress or finds nothing left to do |
| `JobDriver.Driver.Run` | examples/workflow/operate_nvcf_functions.py:314-329 | whether it ends, raises or crashes: every path in one place, the file holds the earlier entries and then exactly the succeeded paths, which the service said were fulfilled, jobs started in order, and all commands are accounted for; it raises only when a launch or a poll has failed six times in a row, and ends by itself only with every job succeeded or given up |
| `JobDriver.Closer` | examples/workflow/operate_nvcf_functions.py:314-327 | every answer other than an exception decreases the launches left or the in-progress answers left |
| `JobDriver.ConservedIsWellBehaved` | examples/workflow/operate_nvcf_functions.py:308-329 | no recorded path is launched, none more than five times, jobs start in input order, and only what the service said is fulfilled succeeds |
| `JobDriver.RunOnce` | examples/workflow/operate_nvcf_functions.py:308-329 | a whole process from file to file: it only appends what succeeded; on a normal end each job has succeeded or was launched five times; an exception is a launch or poll whose six commands all failed; the commands sent are exactly those of its launches and polls |
| `JobDriver.NewlyRecorded` | examples/workflow/operate_nvcf_functions.py:286-291 | what one run adds is new to the file |
| `JobDriver.RecordedNotLaunched` | examples/workflow/operate_nvcf_functions.py:286-291 | a run launches nothing that the file recorded when it began |
| `JobDriver.Sessions` | examples/workflow/operate_nvcf_functions.py:267-329 | over any sequence of runs, exceptions and crashes the file never loses an entry or holds a path twice; run b does the b-th input list in first-occurrence order; it finds recorded all that was there at first and all that earlier runs added, and launches none of it |
| `ProgressLog.StepKeepsInv` | cosmos_curator/core/cf/nvcf_main.py:1048-1163 | every single action of any party keeps the conservation of lines |
| `ProgressLog.LogConservation` | cosmos_curator/core/cf/nvcf_main.py:1048-1163 | at every interleaving, whatever raises: log file, unwritten buffer and queue are together all lines put, in order |
| `ProgressLog.CompleteLog` | cosmos_curator/core/cf/nvcf_main.py:1115-1153 | after exit the log file is exactly the lines put before the final drain ended; if the producer finished first, all of them |
| `ProgressLog.StatusMonotone` | cosmos_curator/core/cf/nvcf_main.py:139-158 | the request status only moves up the order not-found, running, done, failed, and failed is for good |
| `ProgressLog.ExitStatus` | cosmos_curator/core/cf/nvcf_main.py:1155-1163 | when the thread exits the status is done or failed, and failed if a termination was recorded before |
| `ProgressLog.FinalStatus` | cosmos_curator/core/cf/nvcf_main.py:1158-1163 | on exit, the status is done if neither the pipeline failed after the setup nor anything was terminated, and failed if the pipeline failed after the setup and before the exit |
| `ProgressLog.WritesWhatIsDue` | cosmos_curator/core/cf/nvcf_main.py:1076-1108 | a due write that does not raise brings the log file up to date with the buffer, and one that raises keeps the lines |
| `ProgressLog.StopsForAReason` | cosmos_curator/core/cf/nvcf_main.py:1049-1067 | the stop event is set exactly on request or when the thread reads that the request is not running |
| `ProgressLog.StoppingProgresses` | cosmos_curator/core/cf/nvcf_main.py:1048-1163 | once stopping with nothing more put, each of the thread's own actions brings it closer to its end, and no other party sets it back |
| `ProgressLog.StoppingTerminates` | cosmos_curator/core/cf/nvcf_main.py:1048-1163 | so the thread exits after a number of its own actions known in advance |
| `ProgressLog.FailedStops` | cosmos_curator/core/cf/nvcf_main.py:1048-1067 | a thread whose request has been marked failed notices within seven of its own actions, if the status can be read |
| `ProgressLog.TerminationTakesEffect` | cosmos_curator/core/cf/nvcf_main.py:354-360 | once a termination is recorded and the producer is done, the thread exits after a bounded number of its own actions and the request is failed |
| `ProgressThread.Monitor.GetRequestStatus` | cosmos_curator/core/cf/nvcf_main.py:139-158 | failed before done before running before not found |
| `ProgressThread.Monitor.CheckStatus` | cosmos_curator/core/cf/nvcf_main.py:1049-1056 | sets the stop event when the status can be read and is not running |
| `ProgressThread.Monitor.GetNoWait` | cosmos_curator/core/cf/nvcf_main.py:1068-1074 | moves the oldest line from the queue to the buffer |
| `ProgressThread.Monitor.Act` | cosmos_curator/core/cf/nvcf_main.py:1048-1163 | the thread's in-place action is the step of the state machine |
| `ProgressThread.Monitor.Live` | cosmos_curator/core/cf/nvcf_main.py:1048-1163 | over any interleaving the in-place thread follows the state machine, loses no line, and exits with a complete log and with the status that says whether the pipeline succeeded |
| `ColorHistogram.EncodeInjective` | cosmos_curator/models/transnetv2.py:469-471 | the cell number lies in 0 to 511 and tells the cells apart |
| `ColorHistogram.IndexDecodes` | cosmos_curator/models/transnetv2.py:477-479 | an encoded index is in range and belongs to exactly one frame and one cell |
| `ColorHistogram.FrameCountStep` | cosmos_curator/models/transnetv2.py:473-486 | a pixel adds one to its own cell of its own frame and to nothing else |
| `ColorHistogram.ScatterAdd` | cosmos_curator/models/transnetv2.py:481-486 | the scatter in place leaves every entry at the plain count of its frame and cell |
| `ColorHistogram.ComputeHistograms` | cosmos_curator/models/transnetv2.py:445-488 | the flat histograms equal the plain per-frame counts of the 512 cells, as numbers of pixels |
| `ColorHistogram.EntryIsCardinality` | cosmos_curator/models/transnetv2.py:469-486 | entry 64r + 8g + b of frame f is the number of that frame's pixels whose red, green and blue lie in the r-th, g-th and b-th eighth of the range |
| `ColorHistogram.FrameTotal` | cosmos_curator/models/transnetv2.py:481-488 | each frame's counts sum to height times width |
| `ColorHistogram.DotLinear` | cosmos_curator/models/transnetv2.py:505 | the similarity of two frames is linear in each |
| `ColorHistogram.DotPicks` | cosmos_curator/models/transnetv2.py:505 | and that to a frame of one colour is the amount of that colour |
| `ColorHistogram.BandedIsShifted` | cosmos_curator/models/transnetv2.py:504-528 | entry k of row t is the similarity of frames t and t + k - half, and 0 outside the clip |
| `ColorHistogram.BandedSymmetric` | cosmos_curator/models/transnetv2.py:504-528 | the band inherits the symmetry of the similarities |
| `BraceScan.FindEnd` | cosmos_curator/pipelines/common/semantic_filter_postprocess.py:69-81 | the end of the block from the first brace, or none exactly when no block starts there |
| `BraceScan.FindBlock` | cosmos_curator/pipelines/common/semantic_filter_postprocess.py:64-83 | returns the block that starts at the first opening brace, or none exactly when there is none |
| `BraceScan.BlockUnique` | cosmos_curator/pipelines/common/semantic_filter_postprocess.py:69-83 | no other block starts at the same brace, so the one found is unique and the shortest |
| `BraceScan.BlocksAreNested` | cosmos_curator/pipelines/common/semantic_filter_postprocess.py:69-83 | the blocks found by counting are exactly the properly nested brace expressions |
| `WindowVerdicts.FlagWindow` | cosmos_curator/pipelines/common/semantic_filter_postprocess.py:118-125 | the flagged criteria of one window and their reasons |
| `WindowVerdicts.EvaluateSemantic` | cosmos_curator/pipelines/common/semantic_filter_postprocess.py:100-132 | verdict, issues, reasons and errors as specified over the set of windows |
| `WindowVerdicts.SemanticMeans` | cosmos_curator/pipelines/common/semantic_filter_postprocess.py:113-125 | the issues are the criteria confirmed in some window, under the key with underscores; each parsed window is given exactly those it confirms, and each other one is an error |
| `WindowVerdicts.SemanticPassMeans` | cosmos_curator/pipelines/common/semantic_filter_postprocess.py:127-131 | a clip passes exactly for scores only, without windows, or when some window was parsed and no more than the allowed share of the windows is flagged |
| `WindowVerdicts.CollectMatches` | cosmos_curator/pipelines/common/semantic_filter_postprocess.py:146-170 | the rejections, whether anything allowed matched, and the first blocked match |
| `WindowVerdicts.FirstBlockedMeans` | cosmos_curator/pipelines/common/semantic_filter_postprocess.py:157-161 | the matched blocked label is a confirmed one with none confirmed before it |
| `WindowVerdicts.EvaluateClassifier` | cosmos_curator/pipelines/common/semantic_filter_postprocess.py:173-217 | verdict, issues, reasons, errors and classification as specified over the set of windows |
| `WindowVerdicts.ClassifierMeans` | cosmos_curator/pipelines/common/semantic_filter_postprocess.py:187-206 | each parsed window is given the blocked labels it confirms and the allowed ones it denies or leaves out; each other one is an error |
| `WindowVerdicts.ClassifierPassMeans` | cosmos_curator/pipelines/common/semantic_filter_postprocess.py:208-217 | a clip passes exactly when something allowed is confirmed, where anything has to be and there are windows, and no more than the allowed share of the windows confirms something blocked |
| `WindowVerdicts.ClassificationMeans` | cosmos_curator/pipelines/common/semantic_filter_postprocess.py:193-216 | the labels are the valid ones that some window confirms; without any, the clip is unclassified exactly where categories are custom |
| `WindowVerdicts.SplitExactly` | cosmos_curator/pipelines/common/semantic_filter_postprocess.py:113-125 | every window is in exactly one of the parsed and the malformed map |
| `WindowVerdicts.AllMalformed` | cosmos_curator/pipelines/common/semantic_filter_postprocess.py:129 | as many errors as windows means exactly that every window is malformed |
| `WindowVerdicts.SemanticPermuted` | cosmos_curator/pipelines/common/semantic_filter_postprocess.py:100-132 | any permutation of the windows gives the same verdict, issues and maps |
| `WindowVerdicts.ClassifierPermuted` | cosmos_curator/pipelines/common/semantic_filter_postprocess.py:173-217 | the same for the classifier |
| `WindowVerdicts.SemanticMonotone` | cosmos_curator/pipelines/common/semantic_filter_postprocess.py:127-131 | a higher rejection threshold never turns a pass into a fail |
| `WindowVerdicts.ClassifierMonotone` | cosmos_curator/pipelines/common/semantic_filter_postprocess.py:208-217 | the same for the classifier |

## Left out

- CaptionEngine.Engine.Step: an engine that never finishes anything again is not modelled, since the source's loop would then not end either.
- InflightCaptioner.CaptionInflightBatching: the type check for pooling outputs (`TypeError`) is not modelled.
- VllmCaption.Caption: the phased driver's `llm.generate` is taken to answer its own requests also on an engine that an earlier in-flight call has left requests in.
- PhasedCaptioner.ProcessRequests: the sanity check on the number of finished requests is not modelled, because that number is proved right.
- CaptionRequests.FreshId: random request ids are assumed never to repeat, and are natural numbers.
- AsyncCaptioner.Captioner.DriveRequest: the semaphore, the rebuilt payload, tracing and back-off are left out; a task is driven when its completion is handled, since driving it only touches its own request. Attempts that a run does not come to may be anything.
- AsyncCaptioner.Captioner.HandleCompleted: callbacks are assumed not to raise, and releasing a finished request's inputs (`inputs = None`) is not modelled.
- The plugins, processors and sampling parameters of the engine, window metadata and debug frames.
- LatentBlend.PredictLatents: half-precision and float rounding are not modelled; the window generator is an arbitrary function of the window and of the overlap.
- NormalChunks.Infer: the checks on array type and number of dimensions, the unloaded-runtime error, and the arithmetic that normalises vectors (an arbitrary function of a frame) are left out.
- NormalChunks.DecodeChunks: scaling, clamping and the VAE are one arbitrary function of a chunk of latents.
- Padding.PaddedSizes: the ceiling is exact, where the source rounds a floating-point quotient up; the two agree for all sizes below 2^53, the multiple being 64.
- StableTextDetector.TextTrack.ToSegment: the rounded duration, the rounded average overlap and the reason text of a segment are left out.
- TextTracks.StabilityNeverRejects: floating-point sums may round below the threshold; the statement is about exact rationals.
- The corner text detector and the OCR model.
- JobDriver.Worker.SubmitJob: commands, their output formats, the validity check of a request id, sleeps and the blind termination before a retry are reduced to "a valid request id or not".
- JobDriver.Driver.Run: with no worker and a pending job the source loops for ever, so at least one worker is required; each launch is assumed to be said to be in progress only finitely often.
- JobDriver.RunOnce: the progress file is required to be empty or to end with a line break, which every file written by the driver does, and appends are atomic; input paths are required to be recognisable when read back, whose exact condition is RecordedIffClean.
- ProgressLog.LogConservation: the mode that reports through the cloud function's status file, temporary files, clocks and the file lock are left out; a write to the log file is one action, and an empty queue is never reported while it holds lines.
- ColorHistogram.ComputeHistograms: batch and time are one frame dimension, as after the source's view; 32-bit counts and the normalisation to unit length are not modelled.
- ColorHistogram.BandedIsShifted: the fully connected layer after the look-up is left out.
- BraceScan.FindBlock: the clean-up before the scan (reasoning and answer tags, quotes, line breaks) and the stripping after it are left out.
- WindowVerdicts.EvaluateSemantic: what becomes of the text found (JSON decoding, key normalisation) is one arbitrary parsing function; window indices are required to be distinct, since the maps are keyed by them.
- WindowVerdicts.EvaluateClassifier: the classification is the set of labels, not the sorted list.
- Comma-separated categories, category files, settings, storage, HTTP handling and Ray start-up.
