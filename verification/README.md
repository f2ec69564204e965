# Live video analytics: a verified model

This project models the moving parts of a camera analytics system - a Python backend that captures,
synchronizes, tracks and scores video of many cameras, and the browser client that shows it - and
proves what they keep over whole runs.

* **Frame path** (`SlotPool`, `FrameBuffers`, `FrameOwnership`, `AtomicPublish`, `BoundedQueue`,
  `Delivery`, `Synchronizer`, `Runtime`, `CameraOrder`, `Pipeline`, `EventDispatch`). Capture threads
  copy frames into reusable shared-memory slots, a bounded queue with three drop policies hands packets
  to the run loop, the synchronizer bundles packets close in time, and the run loop rebuilds the group
  as cameras come and go. The objects are classes updated in place; who owns which slot is proved twice, once on
  the objects with `publish` as one step and once in `FrameOwnership`, a state machine that cuts
  `publish` at every lock and lets any thread act in between; `AtomicPublish` shows that the two agree
  on a publish nobody interrupts. `Pipeline` puts buffer, run loop and synchronizer together, with a
  record of all that happened to the queue, and ties the bundles of the run loop to that record.
* **Inference control** (`InferenceControl`, and `Runtime` for the cameras): camera records against
  the control table and the running orchestrators.
* **Inference ingress** (`TemporalBuffer`, `LatestOnlyQueue`, `IngressScheduler`, `BatchWindow`,
  `Scores`): rolling windows described by history, a gate and cooldown, a coalescing queue that refines
  an ordered map, and smoothed scores with alert levels, in real arithmetic.
* **Identities** (`IdentityService`, `IdentityStore`): the assignment table rebuilt from its own
  events, and the batched update of the identity collection.
* **Browser client and shared embedding** (`InferenceList`, `RealtimeClient`, `Embedding`).

Times are integers (nanoseconds, microseconds or milliseconds as the code has them); scores are
reals; frames, crops and embeddings are values nothing looks into. Clocks, search results, new ids,
detector output and failures of outside calls are parameters. Dictionaries are walked in any order.

## What turned out not to hold as one might expect

* `first_seen_ts <= last_seen_ts` can fail: every operation of the identity store reads the clock
  before it takes the lock (`milvus_store.py:116`, `:204`, `:287`). `LateStampBreaksTheOrder` gives the
  case, `OrderIsKeptIff` the exact condition, `OrderedOverRuns` the property when calls get the lock in
  clock order.
* An inference event can stand twice in the browser's list, when it matches one entry by local id and
  another by persistent id (`UpsertCanDuplicate`, `UpsertKeepsOneEachIff`).
* A cached overview can go stale: a tracking update without tracks, or the message `null`, makes the
  handler throw after it has set the time of the last message (`NullStalesTheOverview` gives the case,
  `HandleMessage` the exact condition).
* A sync of the inference controls on its own leaves an orchestrator running for an active camera that
  has dropped out of the records (`SyncLeavesNoOrphanIff`); a full camera refresh does not.
* With an empty default strategy the control table records the empty strategy while the manager starts
  its fallback (`EmptyDefaultDisagrees`); `SyncAgreesIff` gives the exact condition.
* A window of `required == 0` frames is all the frames, since the slice from the end starts at 0
  (`WindowIsTheNewestFrames`); the callers ask for 16.
* Two tracks of one camera can share a score if a model's name has a colon (`KeysWithColonsCollide`).
  The two supported models have none, the default strategy of the settings is any text;
  `ModelsKeepApartIff` gives the exact condition, which colon-free names meet (`ColonFreeDoNotClash`),
  whatever the ids are.
* Model output with anything but two logits is passed on as it is, in [0,1] or not
  (`OneLogitIsNoProbability`, `VjepaScoreIsAProbabilityIff`).
* Under the block policy capture and run loop can wait for each other for ever: the group keeps one
  packet a camera, and once it holds as many as there are slots no frame gets a slot any more
  (`OneSlotIsTooFew`, `StuckIff`).
* Lifecycle events of a camera whose frame got no output are counted as published and never handed
  over (`ShortDetectionLosesTheEvent`, `ExactlyOnceIff`). That needs a detector that returns fewer
  batches than frames; the one in `detection/yolo.py:56-70` gives one per model result, so a model call
  that comes back short.

## Model

| member | source | states |
|---|---|---|
| FrameOwnership.ExactOwnership | backend/src/opencv_pipeline/buffering/frame_buffer.py:158-222 | Over every interleaving of capture threads and the run loop, under every drop policy: each unreleased packet has exactly one holder (queue, a thread's hand, the run loop, the synchronizer, pending releases) and nothing released is held; the in-use slots are exactly those packets' slots, one each, apart from a duplicate-free free list, never more than the pool allows |
| FrameOwnership.LiveFrameIntegrity | backend/src/opencv_pipeline/buffering/frame_buffer.py:61-86 | From any state a run can reach, a packet whose pixels are in shows exactly its own frame for as long as it is unreleased, whatever the threads do next |
| FrameOwnership.BundleStaysLive | backend/src/opencv_pipeline/runtime.py:221-237 | The packets the synchronizer holds, a just-emitted bundle's among them, stay unreleased with their pixels until the run loop next submits to the synchronizer, takes a camera out of it or closes it, whatever capture threads and run loop do meanwhile |
| FrameOwnership.NoSlotLeaks | backend/src/opencv_pipeline/buffering/frame_buffer.py:44-109 | The number of slots in use is the number of packets queued, in hands, with the run loop, with the synchronizer and awaiting release |
| FrameOwnership.StuckIff | backend/src/opencv_pipeline/buffering/frame_buffer.py:44-59 | Under the block policy, with the queue empty, the run loop idle and every thread wanting a slot or not publishing, nothing can go on by anybody if and only if the group holds as many packets as there are slots |
| FrameOwnership.OneSlotIsTooFew | backend/src/opencv_pipeline/buffering/frame_buffer.py:44-59 | A concrete run with one slot: the first frame goes through to the group and the next thread waits for ever |
| FrameOwnership.StepKeeps | backend/src/opencv_pipeline/buffering/frame_buffer.py:158-280 | Every single lock-protected operation keeps the ownership rule |
| SlotPool.Slots.AcquireTakesAFreeSlot | backend/src/opencv_pipeline/buffering/frame_buffer.py:44-59 | An acquire fails exactly when every permitted slot is in use; it gives the slot that has been free for longest, or a new one when none is free; nobody used it, and no existing block changes |
| SlotPool.Slots.ReleaseReturnsTheSlot | backend/src/opencv_pipeline/buffering/frame_buffer.py:78-86 | A release gives the slot back once, behind the other free ones, however often it is called, and touches no block |
| SlotPool.SharedMemoryFrameStore.Acquire | backend/src/opencv_pipeline/buffering/frame_buffer.py:44-59 | The in-place acquire does what the value-level one does |
| SlotPool.SharedMemoryFrameStore.Release | backend/src/opencv_pipeline/buffering/frame_buffer.py:78-86 | The in-place release does what the value-level one does |
| FrameBuffers.FramePacket.Release | backend/src/opencv_pipeline/contracts.py:100-107 | The release hook runs the first time only |
| FrameBuffers.FrameBuffer.PreparePacket | backend/src/opencv_pipeline/buffering/frame_buffer.py:191-222 | A packet is turned away exactly for a wrong shape or for want of a slot that dropping the oldest cannot free; otherwise it comes back over a slot of its own holding its pixels; packets outside the queue keep slots and pixels |
| FrameBuffers.FrameBuffer.Publish | backend/src/opencv_pipeline/buffering/frame_buffer.py:158-189 | As one step, the queue and the outcome are what the policy says; exactly the packets that leave the queue are released; slots held outside the queue stay held with their pixels |
| FrameBuffers.FrameBuffer.DropOldestProgress | backend/src/opencv_pipeline/buffering/frame_buffer.py:158-222 | With drop_oldest a correctly shaped frame is accepted if and only if the packets outside the queue hold fewer slots than the pool has |
| FrameBuffers.FrameBuffer.Get | backend/src/opencv_pipeline/buffering/frame_buffer.py:235-250 | The oldest packet comes out, unreleased, with its pixels, and its slot counts as held elsewhere |
| FrameBuffers.FrameBuffer.DiscardCamera | backend/src/opencv_pipeline/buffering/frame_buffer.py:262-280 | All and only the camera's packets leave the queue and are released; the count is right and the slots held elsewhere stay |
| FrameBuffers.FrameBuffer.Close | backend/src/opencv_pipeline/buffering/frame_buffer.py:282-295 | Everything queued is released and the pool given up |
| BoundedQueue.ConsumerSeesASubsequence | backend/src/opencv_pipeline/buffering/frame_buffer.py:158-189 | For every policy and any publishes, gets and discards: what was delivered followed by what is queued is a subsequence of the accepted frames, and the queue keeps its limit |
| BoundedQueue.QueueIsASuffix | backend/src/opencv_pipeline/buffering/frame_buffer.py:158-189 | Without discards the queue is the tail of the accepted history, after the last delivered frame |
| BoundedQueue.DropOldestKeepsTheNewest | backend/src/opencv_pipeline/buffering/frame_buffer.py:158-189 | With drop_oldest and no shared memory every frame is accepted and the queue is exactly the last min(maxsize, undelivered) frames |
| AtomicPublish.AloneIsAfterPublish | backend/src/opencv_pipeline/buffering/frame_buffer.py:158-222 | In the interleaving machine a publish nobody interrupts leaves the queue, the outcome and the thread as the one-step model says, under every policy, with and without a slot, in every state that keeps the ownership rule |
| AtomicPublish.GetTakesTheHead | backend/src/opencv_pipeline/buffering/frame_buffer.py:235-250 | A get in the machine takes the head of the queue and leaves the rest |
| AtomicPublish.DiscardTakesTheCamera | backend/src/opencv_pipeline/buffering/frame_buffer.py:262-280 | A discard in the machine leaves the queue as the one-step discard does, and all and only the camera's packets await release |
| AtomicPublish.SubmitPutsThePacket | backend/src/opencv_pipeline/buffering/synchronizer.py:28-40 | A submit in the machine makes the packet its camera's, and the replaced one awaits release |
| BoundedQueue.WithoutIsExact | backend/src/opencv_pipeline/buffering/frame_buffer.py:262-280 | Discarding a camera removes its frames, every one, and keeps all others in order |
| Synchronizer.EmitsExactlyWhenAligned | backend/src/opencv_pipeline/buffering/synchronizer.py:25-65 | Over any run with growing per-camera sequence numbers, a submit returns a bundle if and only if every camera has a packet and all stamps lie within the tolerance; the bundle holds each camera's latest packet in group order and the next bundle id |
| Synchronizer.BundlesAdvance | backend/src/opencv_pipeline/buffering/synchronizer.py:45-65 | Of any two bundles the later one has no camera behind and some camera ahead, so no bundle repeats |
| Synchronizer.RepeatGivesNothing | backend/src/opencv_pipeline/buffering/synchronizer.py:47-52 | The frame that completed a bundle, submitted again, gives no other bundle and changes nothing |
| Synchronizer.FewAreAligned | backend/src/opencv_pipeline/buffering/synchronizer.py:38-45 | One camera is aligned as soon as it is there; two are exactly when both are there and neither stamp is more than the tolerance ahead |
| Delivery.DeliveredIsOrderly | backend/src/opencv_pipeline/buffering/frame_buffer.py:158-280 | What the queue has delivered of a group's cameras since the group was formed is orderly, as the two results above ask, under every drop policy, if each of these cameras' accepted frames are numbered upwards since its frames were last discarded and none of them are discarded while the group lasts; before that workers may have been replaced and have counted from 0 again |
| Delivery.AcceptedArePublished | backend/src/opencv_pipeline/ingestion/capture.py:106-132 | Since a discard the accepted frames are a part of the published ones, in order, so a worker that counts every frame it publishes is enough |
| Synchronizer.MultiCameraSynchronizer.Submit | backend/src/opencv_pipeline/buffering/synchronizer.py:25-65 | The object's submit follows the value-level step; the replaced packet and nothing else is released; a bundle's packets are those held and its span is the largest difference of their stamps |
| Synchronizer.MultiCameraSynchronizer.RemoveCamera | backend/src/opencv_pipeline/buffering/synchronizer.py:67-77 | The camera leaves the group and only its packet is released |
| Synchronizer.MultiCameraSynchronizer.Close | backend/src/opencv_pipeline/buffering/synchronizer.py:79-85 | Every held packet is released and the group emptied |
| Synchronizer.StampRange | backend/src/opencv_pipeline/buffering/synchronizer.py:41-45 | The loop form of max and min over a non-empty list of stamps |
| Runtime.OpenCvPipelineRuntime.HandlePacket | backend/src/opencv_pipeline/runtime.py:221-237 | A packet of an active camera is submitted and then held unreleased; the group is then the sorted, distinct, healthy active cameras with the packet's own among them; its state and its bundles are those of the frames submitted since it was formed, so of orderly frames a bundle is returned exactly when all cameras are there and aligned, with the latest frame of each under the next number; besides the packet's own the group has exactly the cameras whose last packet is no older than the limit; a bundle has one unreleased packet from each camera; an inactive camera's packet is released and nothing else happens |
| Runtime.OpenCvPipelineRuntime.RefreshSyncGroup | backend/src/opencv_pipeline/runtime.py:613-641 | The group becomes the sorted healthy cameras, or the current one alone if there are none, so it is never empty with a current camera; a changed group gets a new synchronizer and all held packets are released, an unchanged one keeps everything |
| Runtime.HealthyWereSeenLately | backend/src/opencv_pipeline/runtime.py:618-629 | By the record of packets and removals alone: the group has the current camera if that is active and, of the others, exactly those whose last packet came no longer than the limit ago and that have not been removed since |
| Runtime.InGroupIff | backend/src/opencv_pipeline/runtime.py:618-629 | When a packet of another camera or a refresh comes, a camera is in the group if and only if its last packet is no older than the limit |
| Runtime.UnseenIsOutside | backend/src/opencv_pipeline/runtime.py:618-629 | A camera never seen, or not since its removal, is in a group only with its own packet |
| Runtime.OpenCvPipelineRuntime.RemoveCamera | backend/src/opencv_pipeline/runtime.py:292-327 | All state of the camera goes, its worker stops, its packets leave the synchronizer, and every other camera keeps its entry |
| Runtime.OpenCvPipelineRuntime.RefreshCameras | backend/src/opencv_pipeline/runtime.py:241-282 | The active cameras become exactly the listed ones with their sources; the source is that of the last record of the id; a camera keeps its worker if and only if its source is the same; table and orchestrators are what the records ask for after the removals; no orchestrator is left outside the table if none was before; the group is rebuilt from the healthy cameras exactly when the cameras changed; slots outside the group and all pixels stay |
| Runtime.OpenCvPipelineRuntime.SyncInferenceControls | backend/src/opencv_pipeline/runtime.py:284-290 | A sync between refreshes leaves cameras and group alone; without active cameras it does nothing, with them table and orchestrators are what the records ask for, and with behaviour inference off the table is emptied and its cameras stopped |
| CameraOrder.BeforeIsLexicographic | backend/src/opencv_pipeline/runtime.py:618 | The order of ids: a proper beginning comes first, otherwise the smaller character at the first difference |
| CameraOrder.Sort | backend/src/opencv_pipeline/runtime.py:618-633 | Sorting a set of ids gives a strictly increasing list of exactly those ids |
| CameraOrder.SortedIsUnique | backend/src/opencv_pipeline/runtime.py:632-634 | Two sorted lists of one set are equal, so comparing tuples compares groups |
| EventDispatch.ExactlyOnceIff | backend/src/opencv_pipeline/runtime.py:500-511 | Every lifecycle event is handed to the dispatcher exactly once if and only if each bundle camera that has events has exactly one output |
| EventDispatch.ShortDetectionLosesTheEvent | backend/src/opencv_pipeline/runtime.py:493-504 | One frame, its expiry event and a detector that returned nothing: the event counts as published and is handed to nobody |
| EventDispatch.DistinctCamerasAreEnough | backend/src/opencv_pipeline/runtime.py:565-582 | With distinct bundle cameras and an output for every frame the per-camera lists and the remaining list partition the events |
| EventDispatch.Split | backend/src/opencv_pipeline/runtime.py:493-504 | The loop that builds the per-camera lists and the filter that builds the rest |
| Pipeline.Pipeline.PublishFrame | backend/src/opencv_pipeline/buffering/frame_buffer.py:158-222 | With buffer, run loop and synchronizer together: a publish keeps every slot in use with a queued or a held packet and touches nothing the synchronizer holds; with drop_oldest, the right shape and more slots than active cameras it succeeds |
| Pipeline.Pipeline.FramesGetInWhileSlotsExceedCameras | backend/src/opencv_pipeline/buffering/frame_buffer.py:158-222 | With drop_oldest a frame of the right shape is always accepted while the pool has more slots than there are active cameras |
| Pipeline.Pipeline.Iterate | backend/src/opencv_pipeline/runtime.py:221-237 | One pass of the run loop: the oldest packet is held by its group if its camera is active and released if not; no pass leaks a slot; the group goes on having been given exactly the delivered frames of its cameras; with workers that count, a bundle is returned exactly when the group's latest frames are complete and aligned |
| Pipeline.Pipeline.GroupIsOrderly | backend/src/opencv_pipeline/runtime.py:221-282 | After any publishes, passes, removals, refreshes and syncs: if the workers of the group's cameras have counted since they were started, what the group was given is orderly |
| Pipeline.Pipeline.GroupAdvances | backend/src/opencv_pipeline/buffering/synchronizer.py:45-65 | And then of any two bundles the run loop got from the group the later has no camera behind and some camera ahead |
| Pipeline.Pipeline.RemoveCamera | backend/src/opencv_pipeline/runtime.py:292-327 | After an active camera is removed neither the queue nor the group has anything of it and no slot leaks; the other cameras keep their queued packets in order, their entries, when they were last seen, their controls and their orchestrators; a worker started later counts anew; for a camera that is not active queue, entries, controls and orchestrators stay |
| Pipeline.Pipeline.RefreshCameras | backend/src/opencv_pipeline/runtime.py:241-282 | A refresh keeps the joint invariant: no slot leaks, and what the group holds stays live; the active cameras are the listed ones, exactly the packets of removed and restarted cameras leave the queue, and these cameras count anew |
| Pipeline.Pipeline.SyncInferenceControls | backend/src/opencv_pipeline/runtime.py:284-290 | A sync keeps the joint invariant and touches neither queue nor group |
| InferenceControl.StoredSettingsMean | backend/src/opencv_pipeline/runtime.py:399-422 | A camera is disabled only by a stored false; its strategy is the stored one if that is one of the two supported, and the default otherwise |
| InferenceControl.ByIdIsTheLast | backend/src/opencv_pipeline/runtime.py:347-349 | Of several records with one id the last counts |
| InferenceControl.WantedMeans | backend/src/opencv_pipeline/runtime.py:347-377 | What the table has to be, from the records alone: the active, listed cameras that are not disabled, each with the strategy its record resolves to |
| InferenceControl.RunningMeans | backend/src/opencv_pipeline/runtime.py:354-397 | What runs after a sync, camera by camera: started, switched, left alone, stopped, or not touched |
| InferenceControl.ControlTable.Sync | backend/src/opencv_pipeline/runtime.py:338-397 | After a sync with behaviour inference on, the table is exactly {active, listed, enabled camera -> resolved strategy} and what runs is that plus whatever the sync did not turn off; with it off the table is empty and its cameras stopped |
| InferenceControl.SyncAgreesIff | backend/src/opencv_pipeline/runtime.py:366-377 | After a sync every camera in the table runs the recorded strategy if and only if none is started with an empty one; when all agreed before, if and only if every camera that resolves to an empty strategy runs already; with a default strategy that is not empty, always |
| InferenceControl.EmptyDefaultDisagrees | backend/src/services/inference/manager.py:108 | With an empty default strategy one new camera is recorded with the empty strategy and runs the manager's fallback |
| InferenceControl.SyncKeepsTracks | backend/src/opencv_pipeline/runtime.py:338-397 | Every camera in the table is enabled and runs the recorded strategy, or the fallback if an empty one is recorded; every sync keeps that, whatever the settings |
| InferenceControl.SyncLeavesNoOrphanIff | backend/src/opencv_pipeline/runtime.py:351-353 | A sync leaves no orchestrator outside the table if and only if every camera in the table was still active and listed |
| InferenceControl.UnlistedCameraKeepsItsOrchestrator | backend/src/opencv_pipeline/runtime.py:351-353 | A concrete camera that drops out of the records loses its entry and keeps its orchestrator |
| InferenceControl.InferenceManager.ConfigureStream | backend/src/services/inference/manager.py:93-112 | Start, stop and strategy switch of one camera, with every other camera untouched |
| TemporalBuffer.TemporalBufferService.PushSample | backend/src/services/inference/temporal_buffer.py:32-46 | After any history the buffer of every identity is the last min(window, n) samples since its last break (gap, pending state, reset or eviction) |
| TemporalBuffer.SinceFollows | backend/src/services/inference/temporal_buffer.py:32-46 | How the samples since the break go on, without the notion of a break: a push joins them if it comes within the gap of the last one and is not pending, and starts anew if not; a reset ends them, an eviction does if the last one is too old; nothing else touches them |
| TemporalBuffer.TemporalBufferService.Get | backend/src/services/inference/temporal_buffer.py:48-51 | The window has min(window size, samples since the break) samples, the newest ones, in order |
| TemporalBuffer.TemporalBufferService.Depth | backend/src/services/inference/temporal_buffer.py:53-56 | The depth is min(window size, samples since the break) |
| TemporalBuffer.TemporalBufferService.EvictStale | backend/src/services/inference/temporal_buffer.py:63-73 | Eviction forgets exactly the identities not seen within the cutoff and keeps the history correspondence |
| TemporalBuffer.TemporalBufferService.ResetId | backend/src/services/inference/temporal_buffer.py:58-61 | A reset is a break for its identity and nothing to the others |
| TemporalBuffer.SinceIsCoherent | backend/src/services/inference/temporal_buffer.py:32-46 | Since the last break neighbours are at most the gap apart, all samples are the identity's own, only the first can be pending, and the last is the one last seen |
| TemporalBuffer.WindowIsCoherent | backend/src/services/inference/temporal_buffer.py:48-51 | The same holds of the window a get returns |
| LatestOnlyQueue.DeliveredInTurn | backend/src/services/inference/ingress_scheduler.py:37-54 | Whatever puts come in between, an identity in place k is at the front after k gets, with the batch put for it last |
| LatestOnlyQueue.PutPutsTheBatch | backend/src/services/inference/ingress_scheduler.py:37-46 | A put fails exactly when the id is new and the queue is full; an id that is there gets the batch in its place, a new one comes behind all others, and nothing else changes |
| LatestOnlyQueue.AcceptedIsDelivered | backend/src/services/inference/ingress_scheduler.py:37-54 | A batch accepted for a new id is at the front after as many gets as there were entries, with the batch put for the id last |
| LatestOnlyQueue.LatestOnlyQueue.PutLatest | backend/src/services/inference/ingress_scheduler.py:37-46 | Refines a put into an ordered map: after a success the batch is queued under its id, a new id last; it fails exactly when the id is not queued and the limit is reached, and a QueueFull leaves the map as it was although the batch was stored |
| LatestOnlyQueue.LatestOnlyQueue.GetBatch | backend/src/services/inference/ingress_scheduler.py:48-54 | Refines taking the head of the ordered map, in one pass of the loop |
| IngressScheduler.InferenceIngressScheduler.Ingest | backend/src/services/inference/ingress_scheduler.py:95-193 | A sample is gated exactly when the window is too short or the sample unfit, and cooling exactly when a batch of the identity was offered less than the cooldown ago; an enqueued batch is the identity's window, is then in the queue, ends with this sample and is good; every stored batch stays good |
| IngressScheduler.ReasonsSayWhy | backend/src/services/inference/ingress_scheduler.py:257-279 | Each reason is given exactly when its own check fails |
| IngressScheduler.InferenceIngressScheduler.Deliver | backend/src/services/inference/ingress_scheduler.py:48-54 | Every delivered batch is of one identity, no longer than the window and no shorter than required, non-empty when the window has room, with neighbours at most the gap apart, and ends with a sample that passed the gate |
| IngressScheduler.InferenceIngressScheduler.AttemptsKeepTheRate | backend/src/services/inference/ingress_scheduler.py:157-168 | Attempts to enqueue one identity over a span D number at most D / cooldown + 1 |
| IngressScheduler.GateFailureReasons | backend/src/services/inference/ingress_scheduler.py:257-279 | No reason is given exactly when the buffer is deep enough and the sample is fit |
| IngressScheduler.GoodBatchFillsTheWindow | backend/src/services/inference/batch_builder.py:21-31 | A delivered batch becomes exactly the required number of frames, all from the batch, the last one being the batch's last sample, which passed the gate |
| BatchWindow.WindowIsTheNewestFrames | backend/src/services/inference/batch_builder.py:21-31 | The prepared window is the newest frames, then repetitions of the last; its length is the required one if and only if that is positive |
| Scores.Smoother.SmoothScore | backend/src/services/inference/orchestrator.py:570-583 | The score is the smoothed history of its key. It is that of the one identity, camera and model as long as no other track with the same key has scored, and always for one camera, as an orchestrator has, and models whose names have no colon, whatever the ids; raw scores in [0,1] keep it there |
| Scores.KeyIsOwnIff | backend/src/services/inference/orchestrator.py:579 | On one camera a track has its key to itself among the tracks of its model; among those of models with colon-free names if and only if its model is one; among those of any models if and only if its id is colon-free too |
| Scores.ScoresAreOwnIff | backend/src/services/inference/orchestrator.py:570-583 | What went under a track's key is the track's own if and only if no other track with the same key has scored |
| Scores.ScoreIsAlwaysOwnIff | backend/src/services/inference/orchestrator.py:570-583 | On one camera no history lets another track touch a track's score: with colon-free models if and only if its model is one, with any models if and only if its id is colon-free too |
| Scores.ModelsKeepApartIff | backend/src/services/inference/orchestrator.py:570-583 | On one camera the tracks of some models, whatever their ids, never touch each other's scores if and only if no model's name is the end of another's after a colon |
| Scores.SmoothedStaysBetween | backend/src/services/inference/orchestrator.py:570-583 | Raw scores within bounds keep the smoothed score within them |
| Scores.SmoothedTowards | backend/src/services/inference/orchestrator.py:35 | n equal scores shrink the distance to them by 13/20 each |
| Scores.SmoothedIsMonotone | backend/src/services/inference/orchestrator.py:570-583 | Pointwise larger raw scores never give a smaller smoothed score |
| Scores.AlertLevelIsMonotone | backend/src/services/inference/decision_engine.py:21-27 | Pointwise larger raw scores never give a lower alert level |
| Scores.ClassifyMeans | backend/src/services/inference/decision_engine.py:21-27 | Which scores give which level, for any thresholds, the alert threshold first; by default alert from 0.65 and warning from 0.5 |
| Scores.OnesForceAlertIff | backend/src/services/inference/contracts.py:64-65 | n scores of 1 raise the alert from every state in [0,1] if and only if n is at least three |
| Scores.ZerosForceNormalIff | backend/src/services/inference/contracts.py:64-65 | n scores of 0 end in normal from every state in [0,1] if and only if n is at least two |
| Scores.KeysDoNotCollide | backend/src/services/inference/orchestrator.py:579 | Keys of colon-free ids are equal only for equal parts |
| Scores.KeysWithColonsCollide | backend/src/services/inference/orchestrator.py:579 | Two tracks of one camera share a key when the name of one's model has a colon |
| Scores.VjepaScoreIsAProbabilityIff | backend/src/services/inference/orchestrator.py:777-785 | A score is a probability if and only if there were two logits or the first number already was one; with two it is at least a half exactly when the second is not smaller |
| Scores.ScoreIsTheSoftmax | backend/src/services/inference/orchestrator.py:777-785 | Taking the larger logit off first changes nothing: the score is the second logit's share of the two exponentials |
| Scores.OneLogitIsNoProbability | backend/src/services/inference/orchestrator.py:777-785 | A single logit of 2 is passed on as the score 2 |
| IdentityService.IdentityAssignmentService.ApplyMatches | backend/src/opencv_pipeline/identity/service.py:199-260 | One event a pair, reporting that track and match; the log still rebuilds the table under a replay that accepts only fitting events; each track object takes what its last match says |
| IdentityService.IdentityAssignmentService.ExpireStale | backend/src/opencv_pipeline/identity/service.py:101-144 | Exactly the entries that reached the time limit go, each with one event that tells of it and of the present time; every other entry stays as it was |
| IdentityService.IdentityAssignmentService.RemoveCamera | backend/src/opencv_pipeline/identity/service.py:146-192 | Exactly the camera's entries go, each with one event that tells of it and of the present time |
| IdentityService.IdentityAssignmentService.Assign | backend/src/opencv_pipeline/identity/service.py:58-99 | Events of exactly the tracks with an embedding, in order, then expiries; afterwards every entry is younger than the limit and the log rebuilds the table |
| IdentityService.TableIsTheLastEvents | backend/src/opencv_pipeline/identity/service.py:199-260 | The table is the last event of every track that has not expired |
| IdentityService.EveryTrackFollowsThePattern | backend/src/opencv_pipeline/identity/service.py:206-227 | Per track the events form ((created or updated)(updated or merged)* expired)*, open while the track is assigned |
| IdentityService.EventsNameTheCurrentIdentity | backend/src/opencv_pipeline/identity/service.py:212-227 | A merge names the identity held just before and a different new one, an expiry the identity held, and a creation comes only to an unassigned track |
| IdentityService.ReplayExpired | backend/src/opencv_pipeline/identity/service.py:108-135 | Replaying expiries removes exactly their entries |
| IdentityStore.DedupedWriteIsTheSame | backend/src/services/tracking/identity/milvus_store.py:380-389 | The deduplicated batch has each key once and leaves the collection as writing every payload in order would |
| IdentityStore.MilvusIdentityStore.LockedBatchResolve | backend/src/services/tracking/identity/milvus_store.py:323-401 | One result a request, in order, each as its own hits say; the collection is as if every observation had been written in turn with stored first stamps kept |
| IdentityStore.MilvusIdentityStore.ParseBatchResults | backend/src/services/tracking/identity/milvus_store.py:403-478 | Whatever the search returned: a request is matched exactly when its best hit has a number at or above the threshold and an id, and gets that id and number; any other gets its new id, with the number if it is below the threshold and 0 otherwise; the payload is the request's observation under that id |
| IdentityStore.MilvusIdentityStore.ResolveIdentity | backend/src/services/tracking/identity/milvus_store.py:105-164 | Succeeds exactly when there is no hit, or the hit can be read and, if it is near, has an id and a working lookup (an empty hit counts as similarity 0); it answers as in a batch and makes one write of the observation; otherwise nothing is written |
| IdentityStore.MilvusIdentityStore.RefreshIdentity | backend/src/services/tracking/identity/milvus_store.py:192-229 | One write with the first stamp kept, or none when the lookup fails |
| IdentityStore.RowAfterWrite | backend/src/services/tracking/identity/milvus_store.py:352-389 | Every mentioned id gets the last payload stamped now, keeping the stored first stamp if the id was matched and the lookup works; every other row stays |
| IdentityStore.LastRowIsTheLast | backend/src/services/tracking/identity/milvus_store.py:380-389 | The row written for an id is that of the last payload with it |
| IdentityStore.OrderIsKeptIff | backend/src/services/tracking/identity/milvus_store.py:287 | A write keeps first_seen <= last_seen everywhere if and only if no row whose first stamp is fetched was first seen later than the write's clock |
| IdentityStore.LateStampBreaksTheOrder | backend/src/services/tracking/identity/milvus_store.py:116 | Two calls that get the lock in the opposite order of their clock readings leave a row first seen after it was last seen |
| IdentityStore.OrderedOverRuns | backend/src/services/tracking/identity/milvus_store.py:105-229 | Over any run in clock order first_seen <= last_seen always |
| IdentityStore.FirstSeenOverRuns | backend/src/services/tracking/identity/milvus_store.py:349-374 | Once stored, an identity stays and its first stamp never changes while lookups succeed and made-up ids are fresh |
| RealtimeClient.RealtimeClient.OnClose | frontend/services/realtimeClient.ts:300-308 | The current socket's close arms a reconnect; any other socket's changes nothing. Like every step, it keeps: started means exactly one of "socket not closed" and "reconnect armed"; stopped means no socket and no timer; every recorded timer is armed and no other is |
| RealtimeClient.RealtimeClient.OnOpen | frontend/services/realtimeClient.ts:283-288 | The current socket's open resets the attempts and starts the heartbeat; any other socket's changes nothing |
| RealtimeClient.RealtimeClient.OnError | frontend/services/realtimeClient.ts:295-298 | The current socket's error only changes the connection state; any other socket's changes nothing |
| RealtimeClient.RealtimeClient.Start | frontend/services/realtimeClient.ts:180-190 | Starting opens a socket or arms a reconnect, with the connection state to match, and arms the sweep every second; a second start does nothing |
| RealtimeClient.RealtimeClient.Stop | frontend/services/realtimeClient.ts:192-211 | Stopping clears every timer, tells a socket that is not closed to close and forgets it; snapshots and the attempt count stay |
| RealtimeClient.RealtimeClient.StoppedIsQuiet | frontend/services/realtimeClient.ts:192-211 | While stopped no timer is armed and no socket is the current one |
| RealtimeClient.RealtimeClient.FireReconnect | frontend/services/realtimeClient.ts:406-409 | The timer leads to a new socket or to the next, longer wait |
| RealtimeClient.DelayDoublesToEightSeconds | frontend/services/realtimeClient.ts:405 | The delay is 1000 * 2^min(n-1,3): it doubles up to 8000 and the 10000 bound never binds |
| RealtimeClient.RealtimeClient.HandleMessage | frontend/services/realtimeClient.ts:311-361 | A message for a camera changes that camera's snapshot alone, in the part its topic or event names, and becomes the first of at most 30 activities; items are their camera's own and lists keep 12 and 12; every cache equals the live value afterwards, if and only if the message is usable, or no overview was cached, or the time of the last message is the same |
| RealtimeClient.UpdatedShows | frontend/services/realtimeClient.ts:324-351 | Per kind of message: a frame is stored; a tracking update is stored and keeps exactly the events on its tracks, in order; an inference event is in the list, alone of its track; an identity event comes first, the others of other tracks or times behind it in order, twelve in all; everything else stays but the time |
| RealtimeClient.AddressedIff | frontend/services/realtimeClient.ts:54-71 | A message is for a camera exactly when the payload names it and the envelope names it or none; it is unusable exactly when it is a tracking update without tracks |
| RealtimeClient.NullStalesTheOverview | frontend/services/realtimeClient.ts:311-320 | A client whose overview has been shown gets the message null; the overview shown next still has the old time of the last message |
| RealtimeClient.RealtimeClient.OnMessage | frontend/services/realtimeClient.ts:290-293 | A message on any socket but the current one changes nothing; on the current one it does what the handler does |
| RealtimeClient.RealtimeClient.FireSweep | frontend/services/realtimeClient.ts:378-394 | A sweep leaves in each snapshot, in order, exactly the events on a track of the last tracking update or younger than three seconds, and every cache right |
| RealtimeClient.RealtimeClient.GetOverviewSnapshot | frontend/services/realtimeClient.ts:236-247 | Between handlers the overview returned is the live one |
| RealtimeClient.RealtimeClient.GetCameraSnapshot | frontend/services/realtimeClient.ts:249-257 | Between handlers the camera snapshot returned is the live one |
| RealtimeClient.UpdatedIsClean | frontend/services/realtimeClient.ts:324-351 | A message keeps a snapshot to its own camera and its lists to their limits |
| InferenceList.UpsertPutsTheEvent | frontend/services/realtimeClient.ts:84-108 | After an upsert into a list of at most 12 the event is present, no different entry shares its local track or key, the limit holds |
| InferenceList.UpsertPlaces | frontend/services/realtimeClient.ts:84-108 | Entries about the event's track give way to it in their places, every other stays; an event about no entry's track comes last, and of more than twelve the first falls out |
| InferenceList.SameTrackIff | frontend/services/realtimeClient.ts:80-99 | Two events are about one track if their local ids or persistent ids are the same, or one's persistent id is the local id of the other, which has none |
| InferenceList.UpsertInferenceEvent | frontend/services/realtimeClient.ts:84-108 | The mapping loop with its flag computes the upsert |
| InferenceList.UpsertKeepsOneEachIff | frontend/services/realtimeClient.ts:91-99 | A list with one entry a track stays one if and only if the event matches at most one entry |
| InferenceList.UpsertCanDuplicate | frontend/services/realtimeClient.ts:91-99 | A concrete event that matches two entries takes both places |
| InferenceList.PruneKeepsTheAttached | frontend/services/realtimeClient.ts:110-136 | The set-based prune keeps exactly the camera's events the scan finds attached |
| InferenceList.PruneKeepsExactly | frontend/services/realtimeClient.ts:110-136 | By the tracks alone: the camera's events with the local or the non-empty persistent id of some track |
| InferenceList.SweepKeepsExactly | frontend/services/realtimeClient.ts:378-388 | A sweep keeps those and the camera's events emitted after the cutoff |
| InferenceList.SweepAfterPruneDropsNothing | frontend/services/realtimeClient.ts:378-394 | A sweep after a prune with the same tracks drops nothing |
| Embedding.Embed | backend/src/services/tracking/reid/embedder.py:84-106 | Chunking gives one vector a crop, in order, as one pass does, if and only if the chunk size is positive or there are no crops |
| Embedding.SharedEmbeddingService.RunOnce | backend/src/services/tracking/reid/shared_embedding_service.py:58-90 | Each caller still waiting gets what embedding its own crops alone would have returned or raised; finished and cancelled futures are left alone; none is completed twice |
| Embedding.Coalesce | backend/src/services/tracking/reid/shared_embedding_service.py:68-73 | The offsets mark each request's crops in the concatenation |
| Embedding.SharedEmbeddingService.EmbedAsync | backend/src/services/tracking/reid/shared_embedding_service.py:96-104 | No crops are answered at once; others queue with a new pending future |

## Left out

- FrameBuffers.FrameBuffer.Publish: under the block policy a publish that would wait is `Waiting` with nothing changed, while the code may already hold a slot as it waits; that state is part of `FrameOwnership`, whose interleavings cover it.
- FrameBuffers.FrameBuffer.PreparePacket: conversion of dtype and memory layout is not modelled; a frame is its shape and its pixels. The new packet's width, height and metadata copies are not kept.
- FrameBuffers.FrameBuffer.Close: closing while capture threads are inside `publish`, and unlinking the memory blocks, are not modelled.
- Synchronizer.EmitsExactlyWhenAligned: takes per-camera sequence numbers to grow strictly within a group's history, which `Pipeline.Pipeline.GroupIsOrderly` derives for the run loop; the time of emission is not kept.
- Pipeline.Pipeline.GroupIsOrderly: takes a worker that was stopped to publish nothing more. The code waits two seconds for its thread and goes on; a frame published later than that is not covered.
- Synchronizer.MultiCameraSynchronizer.Submit: requires a non-empty group, since the newest and oldest of no stamps do not exist; `Runtime.OpenCvPipelineRuntime.HandlePacket` proves that it is never called otherwise.
- Runtime.OpenCvPipelineRuntime.RefreshSyncGroup: how long a camera stays healthy, at least two seconds and longer for slow frame rates, is a parameter.
- Runtime.OpenCvPipelineRuntime.RemoveCamera: the call into the frame buffer is added in `Pipeline.Pipeline.RemoveCamera`, the one into the identity service is `IdentityService.IdentityAssignmentService.RemoveCamera`; tracker, stabilizer and other per-camera caches are not modelled. Each iteration of the run loop is one step.
- Runtime.OpenCvPipelineRuntime.RefreshCameras: the queue's part is added in `Pipeline.Pipeline.RefreshCameras`, as one step, so the order of the discards within a refresh is not visible. Building a source from a record and loading calibration are not modelled.
- InferenceControl.ControlTable.Sync: a stored strategy that is a list or an object, over which the code raises, counts as unsupported here; the route that deletes a stream and calls the manager directly is not part of this model.
- TemporalBuffer.TemporalBufferService.PushSample: only the sample fields the ingress looks at are kept; the rest is one opaque value.
- LatestOnlyQueue.LatestOnlyQueue.GetBatch: waiting on an empty queue is not modelled; a get happens when something is queued.
- IngressScheduler.InferenceIngressScheduler.Ingest: logging and metrics are not modelled.
- Scores.Smoother.SmoothScore: reals instead of floating point; rounding is not modelled.
- IdentityService.IdentityAssignmentService.Assign: the store's answer is a parameter with one match a request, as `IdentityStore.MilvusIdentityStore.LockedBatchResolve` gives; a store that raises leaves the table alone and is not modelled here.
- IdentityStore.MilvusIdentityStore.LockedBatchResolve: what the vector search returns is arbitrary; the search itself, collection set-up, the semaphore and health flags are not modelled. A write that raises is not modelled.
- RealtimeClient.RealtimeClient.HandleMessage: text fields are text; the handler never throws over one of another type, but how it compares is not modelled. Tracks it cannot walk are modelled as no tracks. Activity labels and tones, and the order of the stream ids, are not kept.
- RealtimeClient.RealtimeClient.Start: the guard against opening a second socket over a live one is kept, but no caller can meet it; the check for a missing `window` is left out. Listeners may read any snapshot and do nothing else.
- Embedding.SharedEmbeddingService.RunOnce: the model is a function of one crop; waiting for the first request, stopping and the calls from other threads are not modelled.
- Score attribution to samples, alert delivery, completion rates and snapshots of the orchestrator: thin or easy members.
- Detection, tracking, preprocessing, calibration, the Triton client, Kafka, WebSocket and HTTP layers, repositories, settings, metrics: input and output or foreign numeric code.
- asyncio wake-ups, thread joins and shutdown during a bundle in progress.
