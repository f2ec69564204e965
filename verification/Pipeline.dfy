/** Capture buffer and run loop together: whose slots are in use, and when a frame gets in. */
module Pipeline {
  import opened Collections
  import opened Contracts
  import opened SlotPool
  import opened BoundedQueue
  import opened FrameBuffers
  import opened Synchronizer
  import opened Delivery
  import opened InferenceControl
  import opened Runtime
  import CameraOrder

  class Pipeline {
    const buffer: FrameBuffer
    const runtime: OpenCvPipelineRuntime
    /** All that happened to the queue, the first `formed` steps of it before the present group. */
    ghost var ops: seq<Op>
    ghost var formed: nat

    /** Nothing leaks, and the group has been given just what the queue delivered of its cameras. */
    ghost predicate Valid()
      reads this, buffer, buffer.store, buffer.queue
      reads runtime, runtime.synchronizer, runtime.synchronizer.Held(), runtime.table, runtime.table.manager
      reads if runtime.pool == null then {} else {runtime.pool}
    {
      && Owned()
      && Recorded(buffer.policy, buffer.maxsize, ops, formed, Infos(buffer.queue), runtime.syncIds, runtime.submitted)
    }

    /** The pool's slots in use are the queued packets' and the held packets', and no packet is in
        both places: between two steps nobody else has one. */
    ghost predicate Owned()
      reads buffer, buffer.store, buffer.queue
      reads runtime, runtime.synchronizer, runtime.synchronizer.Held(), runtime.table, runtime.table.manager
      reads if runtime.pool == null then {} else {runtime.pool}
    {
      && buffer.store == runtime.pool
      && buffer.Valid() && runtime.Valid()
      && Apart()
      && (runtime.pool != null ==> runtime.OtherSlots() == SlotsOf(buffer.queue))
    }

    ghost predicate Apart()
      reads buffer, runtime, runtime.synchronizer
    {
      forall p :: p in buffer.queue ==> p !in runtime.synchronizer.Held()
    }

    constructor (buffer: FrameBuffer, runtime: OpenCvPipelineRuntime)
      requires buffer.Valid() && runtime.Valid() && buffer.store == runtime.pool
      requires buffer.queue == [] && runtime.synchronizer.latest == map[] && runtime.submitted == []
      requires runtime.pool != null ==> runtime.pool.inUse == {}
      ensures Valid() && this.buffer == buffer && this.runtime == runtime && ops == []
    {
      this.buffer, this.runtime := buffer, runtime;
      ops, formed := [], 0;
    }

    lemma HeldElsewhereIsHeld()
      requires Owned() && runtime.pool != null
      ensures buffer.HeldElsewhere() == runtime.synchronizer.HeldSlots()
    {
      hide Slots.Valid;
      assert runtime.synchronizer.HeldSlots() <= runtime.pool.inUse by {
        forall c | c in runtime.synchronizer.latest
          ensures runtime.synchronizer.latest[c].packet.slot in runtime.pool.inUse {
          assert runtime.synchronizer.Good(c, runtime.synchronizer.latest[c].packet);
        }
      }
    }

    /** The run loop's side stays valid while only the queue and the slots not held change. */
    twostate lemma RuntimeStays()
      requires old(runtime.Valid())
      requires unchanged(runtime) && unchanged(runtime.synchronizer)
      requires unchanged(runtime.table) && unchanged(runtime.table.manager)
      requires unchanged(runtime.synchronizer.Held())
      requires runtime.pool != null ==>
        && runtime.pool.Valid()
        && runtime.synchronizer.HeldSlots() <= runtime.pool.inUse
        && (forall k :: k in runtime.synchronizer.HeldSlots() && k in old(runtime.pool.blocks) ==>
             k in runtime.pool.blocks && runtime.pool.blocks[k] == old(runtime.pool.blocks[k]))
      ensures runtime.Valid()
    {
      hide Slots.Valid, OpenCvPipelineRuntime.CamerasValid, OneSlotEach, CameraOrder.Sorted;
      assert old(runtime.SyncValid());
      forall c | c in runtime.synchronizer.latest
        ensures runtime.synchronizer.Good(c, runtime.synchronizer.latest[c].packet) {
        assert old(runtime.synchronizer.Good(c, runtime.synchronizer.latest[c].packet));
      }
    }

    lemma PoolIsValid()
      requires buffer.Valid() && buffer.store == runtime.pool
      ensures runtime.pool != null ==> runtime.pool.Valid()
    {
    }

    /** If the slots outside the queue are the held ones, the others are the queue's. */
    lemma OthersAreQueued()
      requires buffer.Valid() && buffer.store == runtime.pool && runtime.pool != null
      requires buffer.HeldElsewhere() == runtime.synchronizer.HeldSlots()
      ensures runtime.OtherSlots() == SlotsOf(buffer.queue)
    {
      hide Slots.Valid;
    }

    predicate Fits(info: FrameInfo)
      reads buffer, buffer.store
    {
      buffer.store == null || info.frame.shape == buffer.store.frameShape
    }

    /** Drop_oldest, the right shape, and more slots than active cameras. */
    ghost predicate SurelyFits(info: FrameInfo)
      reads buffer, buffer.store, runtime
    {
      && buffer.policy == DropOldest && Fits(info)
      && (buffer.store == null || |runtime.active| < buffer.store.maxSlots)
    }

    /** With drop_oldest, a frame of the right shape always gets in as long as the pool has more
        slots than there are active cameras, whatever publishes, passes of the run loop, removals,
        refreshes and syncs have led here: each of them keeps `Valid`. */
    lemma FramesGetInWhileSlotsExceedCameras(info: FrameInfo)
      requires Valid() && SurelyFits(info)
      ensures AfterPublish(buffer.policy, buffer.maxsize, Infos(buffer.queue), info, buffer.NoSlot()).0 == Published
    {
      hide Slots.Valid, SlotsIn, CameraOrder.Sorted, OneSlotEach;
      if runtime.pool != null {
        HeldElsewhereIsHeld();
        SlotsInSize(runtime.synchronizer.latest);
        SubsetSize(runtime.synchronizer.latest.Keys, runtime.active.Keys);
        buffer.DropOldestProgress(info);
      }
    }

    /** A step of the buffer that keeps the slots outside the queue, and their pixels, keeps all. */
    twostate lemma BufferStep()
      requires old(Owned())
      requires unchanged(runtime) && unchanged(runtime.synchronizer)
      requires unchanged(runtime.table) && unchanged(runtime.table.manager)
      requires unchanged(runtime.synchronizer.Held())
      requires buffer.Valid() && buffer.store == runtime.pool && Apart()
      requires runtime.pool != null ==>
        && buffer.HeldElsewhere() == runtime.synchronizer.HeldSlots()
        && (forall k :: k in buffer.HeldElsewhere() && k in old(runtime.pool.blocks) ==>
             k in runtime.pool.blocks && runtime.pool.blocks[k] == old(runtime.pool.blocks[k]))
      ensures Owned()
    {
      hide OpenCvPipelineRuntime.Valid, FrameBuffer.Valid, MultiCameraSynchronizer.Valid, SlotsOf,
        MultiCameraSynchronizer.HeldSlots;
      PoolIsValid();
      RuntimeStays();
      if runtime.pool != null {
        OthersAreQueued();
      }
    }

    /** Writing down what has happened changes nothing else. */
    ghost method Note(more: seq<Op>, start: nat)
      requires Owned()
      requires Recorded(buffer.policy, buffer.maxsize, ops + more, start, Infos(buffer.queue), runtime.syncIds,
                        runtime.submitted)
      modifies this`ops, this`formed
      ensures Valid() && ops == old(ops) + more && formed == start
    {
      hide Owned, Recorded;
      ops, formed := ops + more, start;
      assert unchanged(buffer.queue) && unchanged(runtime.synchronizer.Held());
    }

    /** A capture thread publishes a frame, in one step. */
    method PublishFrame(info: FrameInfo) returns (outcome: Outcome)
      requires Valid()
      modifies this`ops, this`formed, buffer`queue, buffer.queue, if runtime.pool == null then {} else {runtime.pool}
      ensures Valid()
      ensures runtime.synchronizer.latest == old(runtime.synchronizer.latest)
      ensures formed == old(formed)
      ensures ops == if old(Fits(info)) then old(ops) + [Publish(info, old(buffer.NoSlot()))] else old(ops)
      ensures (outcome, Infos(buffer.queue)) ==
        if !old(Fits(info)) then (Rejected, Infos(old(buffer.queue)))
        else AfterPublish(buffer.policy, buffer.maxsize, Infos(old(buffer.queue)), info, old(buffer.NoSlot()))
      ensures old(SurelyFits(info)) ==> outcome == Published
    {
      hide Owned, Recorded, AfterPublish, Infos, FrameBuffer.NoSlot;
      if SurelyFits(info) {
        FramesGetInWhileSlotsExceedCameras(info);
      }
      RecordPublish(buffer.policy, buffer.maxsize, ops, formed, Infos(buffer.queue), runtime.syncIds, runtime.submitted,
                    info, buffer.NoSlot());
      outcome := Enqueue(info);
      if old(Fits(info)) {
        Note([Publish(info, old(buffer.NoSlot()))], formed);
      }
    }

    method Enqueue(info: FrameInfo) returns (outcome: Outcome)
      requires Owned()
      modifies buffer`queue, buffer.queue, if runtime.pool == null then {} else {runtime.pool}
      ensures Owned()
      ensures (outcome, Infos(buffer.queue)) ==
        if !old(Fits(info)) then (Rejected, Infos(old(buffer.queue)))
        else AfterPublish(buffer.policy, buffer.maxsize, Infos(old(buffer.queue)), info, old(buffer.NoSlot()))
    {
      hide OpenCvPipelineRuntime.Valid, FrameBuffer.Valid, AfterPublish, SlotsOf, FrameBuffer.HeldElsewhere,
        OpenCvPipelineRuntime.OtherSlots, FrameBuffer.NoSlot;
      if runtime.pool != null {
        HeldElsewhereIsHeld();
      }
      var packet := new FramePacket(info, null, 0);
      outcome := buffer.Publish(packet);
      BufferStep();
    }

    /** The buffer stays valid while only slots of packets outside the queue change. */
    twostate lemma BufferStays()
      requires old(buffer.Valid()) && unchanged(buffer) && unchanged(buffer.queue) && buffer.store == runtime.pool
      requires runtime.pool != null ==>
        runtime.pool.Valid() && runtime.pool.blocks == old(runtime.pool.blocks)
          && SlotsOf(buffer.queue) <= runtime.pool.inUse
      ensures buffer.Valid()
    {
      hide Slots.Valid, DistinctSlots, NoDuplicates;
    }

    lemma RuntimePool()
      requires runtime.Valid()
      ensures runtime.pool != null ==> runtime.pool.Valid() && runtime.OtherSlots() <= runtime.pool.inUse
    {
    }

    /** What the buffer hands over is what the run loop can take. */
    method Take() returns (p: Option<FramePacket>)
      requires Owned()
      modifies buffer`queue
      ensures p.None? <==> old(buffer.queue) == []
      ensures p.None? ==> Owned() && buffer.queue == old(buffer.queue)
      ensures p.Some? ==> Taken(p.value) && p.value == old(buffer.queue[0]) && buffer.queue == old(buffer.queue)[1..]
    {
      hide OpenCvPipelineRuntime.Valid, Slots.Valid;
      if runtime.pool != null {
        HeldElsewhereIsHeld();
      }
      ghost var held := runtime.synchronizer.Held();
      p := buffer.Get();
      assert held == runtime.synchronizer.Held();
      assert forall q :: q in buffer.queue ==> q in old(buffer.queue);
      if p.Some? && runtime.pool != null {
        OthersAreQueuedButOne(p.value.slot);
      }
    }

    lemma OthersAreQueuedButOne(slot: nat)
      requires buffer.Valid() && buffer.store == runtime.pool && runtime.pool != null
      requires buffer.HeldElsewhere() == runtime.synchronizer.HeldSlots() + {slot}
      ensures runtime.OtherSlots() - {slot} == SlotsOf(buffer.queue)
    {
      hide Slots.Valid, FrameBuffer.HeldElsewhere;
      QueuedAreInUse();
    }

    lemma QueuedAreInUse()
      requires buffer.Valid() && buffer.store != null
      ensures SlotsOf(buffer.queue) == buffer.store.inUse - buffer.HeldElsewhere()
      ensures SlotsOf(buffer.queue) <= buffer.store.inUse
    {
      hide Slots.Valid;
    }

    /** A packet the run loop has taken and not dealt with yet. */
    ghost predicate Taken(packet: FramePacket)
      reads buffer, buffer.store, buffer.queue, packet
      reads runtime, runtime.synchronizer, runtime.synchronizer.Held(), runtime.table, runtime.table.manager
      reads if runtime.pool == null then {} else {runtime.pool}
    {
      && buffer.store == runtime.pool
      && buffer.Valid() && runtime.Valid() && Apart()
      && runtime.InHand(packet) && packet !in buffer.queue
      && (runtime.pool != null ==> runtime.OtherSlots() - {packet.slot} == SlotsOf(buffer.queue))
    }

    /** Dealing with the packet in hand, whatever becomes of it, brings everything back in step. */
    twostate lemma HandStep(packet: FramePacket)
      requires old(Taken(packet)) && unchanged(buffer) && unchanged(buffer.queue)
      requires buffer.store == runtime.pool && runtime.Valid()
      requires runtime.synchronizer.Held() <= old(runtime.synchronizer.Held()) + {packet}
      requires runtime.OtherSlots() == old(runtime.OtherSlots()) - {packet.slot}
      requires runtime.pool != null ==> runtime.pool.blocks == old(runtime.pool.blocks)
      ensures Owned()
    {
      hide OpenCvPipelineRuntime.Valid, FrameBuffer.Valid, MultiCameraSynchronizer.Valid, SlotsOf,
        OpenCvPipelineRuntime.OtherSlots, OpenCvPipelineRuntime.InHand;
      RuntimePool();
      BufferStays();
    }

    method Handle(packet: FramePacket, capturedAt: int) returns (bundle: Option<Bundle>)
      requires Taken(packet)
      modifies runtime`lastSeen, runtime`sightings, runtime`syncIds, runtime`submitted, runtime`synchronizer
      modifies packet, runtime.synchronizer, runtime.synchronizer.Held()
      modifies if runtime.pool == null then {} else {runtime.pool}
      ensures Owned() && runtime.IsLive(bundle)
      ensures if packet.info.camera in runtime.active then
          && runtime.Holds(packet) && !packet.released
          && packet.info.camera in runtime.syncIds
          && runtime.lastSeen == old(runtime.lastSeen)[packet.info.camera := capturedAt]
          && runtime.GroupSeenLately(capturedAt, Some(packet.info.camera))
          && runtime.submitted ==
               (if runtime.syncIds == old(runtime.syncIds) then old(runtime.submitted) else []) + [packet.info]
          && runtime.Answers(bundle)
        else
          && packet.released && bundle.None?
          && runtime.syncIds == old(runtime.syncIds) && runtime.submitted == old(runtime.submitted)
    {
      hide OpenCvPipelineRuntime.Valid, FrameBuffer.Valid, MultiCameraSynchronizer.Valid, AfterSubmit, Healthy, SlotsOf,
        OpenCvPipelineRuntime.Joined, OpenCvPipelineRuntime.InHand, OpenCvPipelineRuntime.OtherSlots,
        OpenCvPipelineRuntime.IsLive, OpenCvPipelineRuntime.Answers, OpenCvPipelineRuntime.Holds;
      bundle := runtime.HandlePacket(packet, capturedAt);
      HandStep(packet);
    }

    /** Every camera of the group has a worker that has counted its frames since it was started. */
    ghost predicate Counting()
      reads this`ops, runtime`syncIds
    {
      forall c :: c in runtime.syncIds ==> Growing(AcceptedSince(buffer.policy, buffer.maxsize, ops, c))
    }

    /** Then the group's frames are orderly, whichever cameras have come, gone and been restarted. */
    lemma GroupIsOrderly()
      requires Valid() && Counting()
      ensures Orderly(runtime.syncIds, runtime.submitted)
    {
      hide Owned, Recorded, AcceptedSince, Growing, Orderly;
      RecordedIsOrderly(buffer.policy, buffer.maxsize, ops, formed, Infos(buffer.queue),
                        runtime.syncIds, runtime.submitted);
    }

    /** And of the bundles the group has returned each is later than the ones before. */
    lemma GroupAdvances(i: nat, j: nat)
      requires Valid() && Counting()
      requires i < j < |Synchronizer.Run(runtime.syncIds, runtime.Tolerance(), runtime.submitted).1|
      ensures var bundles := Synchronizer.Run(runtime.syncIds, runtime.Tolerance(), runtime.submitted).1;
              bundles[i].bundleId == i && bundles[j].bundleId == j && Later(bundles[i], bundles[j])
    {
      hide Valid, Counting;
      GroupIsOrderly();
      BundlesAdvance(runtime.syncIds, runtime.Tolerance(), runtime.submitted, i, j);
    }

    /** One pass of the run loop: the oldest packet, if there is one, is given to its camera's group,
        or released if the camera is not active. With workers that count, a bundle is there exactly
        when every camera of the group has delivered a frame since the group was formed and the
        latest ones are aligned; it is these frames under the next number. */
    method Iterate(capturedAt: int) returns (bundle: Option<Bundle>)
      requires Valid()
      modifies this`ops, this`formed, buffer`queue, buffer.queue
      modifies runtime`lastSeen, runtime`sightings, runtime`syncIds, runtime`submitted, runtime`synchronizer
      modifies runtime.synchronizer, runtime.synchronizer.Held()
      modifies if runtime.pool == null then {} else {runtime.pool}
      ensures Valid() && runtime.IsLive(bundle)
      ensures buffer.queue == if old(buffer.queue) == [] then [] else old(buffer.queue)[1..]
      ensures ops == if old(buffer.queue) == [] then old(ops) else old(ops) + [Get]
      ensures old(buffer.queue) == [] ==> bundle.None?
      ensures old(buffer.queue) != [] ==>
        var packet := old(buffer.queue[0]);
        if packet.info.camera in runtime.active then
          && runtime.Holds(packet) && !packet.released
          && runtime.submitted ==
               (if runtime.syncIds == old(runtime.syncIds) then old(runtime.submitted) else []) + [packet.info]
          && runtime.GroupSeenLately(capturedAt, Some(packet.info.camera))
          && runtime.Answers(bundle)
          && (Counting() ==> Orderly(runtime.syncIds, runtime.submitted))
        else packet.released && bundle.None?
    {
      hide Owned, Taken, Recorded, Counting, Orderly, OpenCvPipelineRuntime.Answers, OpenCvPipelineRuntime.Holds;
      var p := Take();
      if p.None? {
        return None;
      }
      InactiveIsOutside(p.value);
      bundle := Handle(p.value, capturedAt);
      RecordPass(buffer.policy, buffer.maxsize, ops, formed, Infos(old(buffer.queue)),
                 old(runtime.syncIds), runtime.syncIds, old(runtime.submitted));
      assert Infos(buffer.queue) == Infos(old(buffer.queue))[1..];
      Note([Get], if runtime.syncIds == old(runtime.syncIds) then formed else |ops|);
      if Counting() {
        GroupIsOrderly();
      }
    }

    lemma InactiveIsOutside(packet: FramePacket)
      requires Taken(packet)
      ensures packet.info.camera !in runtime.active ==> packet.info.camera !in runtime.syncIds
    {
      hide FrameBuffer.Valid, OpenCvPipelineRuntime.SyncValid, OpenCvPipelineRuntime.CamerasValid;
      if packet.info.camera in runtime.syncIds {
        assert packet.info.camera in SetOf(runtime.syncIds);
      }
    }

    /** The queue's half of `_remove_camera`: the camera's packets leave the queue. */
    method DiscardQueued(camera: string)
      requires Owned()
      modifies buffer`queue, buffer.queue, if runtime.pool == null then {} else {runtime.pool}
      ensures Owned()
      ensures Infos(buffer.queue) == Without(Infos(old(buffer.queue)), camera)
      ensures forall p :: p in buffer.queue ==> p in old(buffer.queue)
    {
      hide OpenCvPipelineRuntime.Valid, FrameBuffer.Valid, SlotsOf, Kept, Without, FrameBuffer.HeldElsewhere,
        OpenCvPipelineRuntime.OtherSlots;
      if runtime.pool != null {
        HeldElsewhereIsHeld();
      }
      ghost var queued := buffer.queue;
      var _ := buffer.DiscardCamera(camera);
      KeptAndDropped(queued, camera);
      BufferStep();
    }

    lemma Parts()
      requires Owned()
      ensures buffer.store == runtime.pool && buffer.Valid() && runtime.Valid() && Apart()
      ensures runtime.pool != null ==> runtime.OtherSlots() == SlotsOf(buffer.queue)
    {
    }

    /** A step of the run loop that leaves the buffer alone and takes nothing new keeps all. */
    twostate lemma RunLoopStep()
      requires old(Owned()) && unchanged(buffer) && unchanged(buffer.queue)
      requires buffer.store == runtime.pool && runtime.Valid()
      requires runtime.synchronizer.Held() <= old(runtime.synchronizer.Held())
      requires runtime.OtherSlots() == old(runtime.OtherSlots())
      requires runtime.pool != null ==> runtime.pool.blocks == old(runtime.pool.blocks)
      ensures Owned()
    {
      hide OpenCvPipelineRuntime.Valid, FrameBuffer.Valid, MultiCameraSynchronizer.Valid, SlotsOf,
        OpenCvPipelineRuntime.OtherSlots;
      RuntimePool();
      BufferStays();
    }

    /** The group is the same, without any of some cameras, or it has been given nothing yet. */
    twostate predicate KeptOrNew(gone: set<string>)
      reads runtime
    {
      || runtime.submitted == []
      || (&& runtime.syncIds == old(runtime.syncIds) && runtime.submitted == old(runtime.submitted)
          && forall c :: c in runtime.syncIds ==> c !in gone)
    }

    /** Cameras that are not active are not in the group. */
    lemma NotActiveIsOutside(gone: set<string>)
      requires runtime.Valid() && forall c :: c in gone ==> c !in runtime.active
      ensures forall c :: c in runtime.syncIds ==> c !in gone
    {
      hide OpenCvPipelineRuntime.SyncValid, OpenCvPipelineRuntime.CamerasValid;
      forall c | c in runtime.syncIds ensures c !in gone {
        assert c in SetOf(runtime.syncIds);
      }
    }

    /** The run loop's half of it. */
    method Forget(camera: string, now: int)
      requires Owned() && camera in runtime.active
      modifies runtime`active, runtime`lastSeen, runtime`sightings, runtime`capturing
      modifies runtime`syncIds, runtime`submitted, runtime`synchronizer
      modifies runtime.synchronizer, runtime.synchronizer.Held(), runtime.table, runtime.table.manager
      modifies if runtime.pool == null then {} else {runtime.pool}
      ensures Owned() && runtime.active == old(runtime.active) - {camera}
      ensures runtime.lastSeen == old(runtime.lastSeen) - {camera}
      ensures runtime.table.controls == old(runtime.table.controls) - {camera}
      ensures runtime.table.manager.orchestrators == old(runtime.table.manager.orchestrators) - {camera}
      ensures camera !in runtime.synchronizer.latest && KeptOrNew({camera})
      ensures runtime.GroupSeenLately(now, None)
    {
      hide Owned, OpenCvPipelineRuntime.Valid, FrameBuffer.Valid, MultiCameraSynchronizer.Valid, Healthy, SlotsOf,
        OpenCvPipelineRuntime.OtherSlots;
      Parts();
      runtime.RemoveCamera(camera, now);
      NotActiveIsOutside({camera});
      RunLoopStep();
    }

    /** Writing down that a camera was removed. */
    ghost method NoteRemoval(camera: string, queue: seq<FrameInfo>, ids: seq<string>, submitted: seq<FrameInfo>)
      requires Owned() && Recorded(buffer.policy, buffer.maxsize, ops, formed, queue, ids, submitted)
      requires BoundedQueue.Run(buffer.policy, buffer.maxsize, ops).queue == queue
      requires Infos(buffer.queue) == Without(queue, camera)
      requires runtime.submitted == []
        || (runtime.syncIds == ids && runtime.submitted == submitted && camera !in ids)
      modifies this`ops, this`formed
      ensures Valid() && ops == old(ops) + [Discard(camera)]
      ensures AcceptedSince(buffer.policy, buffer.maxsize, ops, camera) == []
    {
      hide Owned, Without, Recorded, Infos, AcceptedSince;
      RunDiscard(buffer.policy, buffer.maxsize, ops, camera);
      RecordRemovals(buffer.policy, buffer.maxsize, ops, formed, queue, ids, submitted, [Discard(camera)],
                     runtime.syncIds, runtime.submitted);
      CountsAnew(buffer.policy, buffer.maxsize, ops, [Discard(camera)], camera);
      Note([Discard(camera)], if runtime.submitted == [] then |ops| + 1 else formed);
    }

    /** `_remove_camera`: afterwards neither the queue nor the group has anything of the camera, and
        its frames are counted anew. */
    method RemoveCamera(camera: string, now: int)
      requires Valid()
      modifies this`ops, this`formed, buffer`queue, buffer.queue
      modifies runtime`active, runtime`lastSeen, runtime`sightings, runtime`capturing
      modifies runtime`syncIds, runtime`submitted, runtime`synchronizer
      modifies runtime.synchronizer, runtime.synchronizer.Held(), runtime.table, runtime.table.manager
      modifies if runtime.pool == null then {} else {runtime.pool}
      ensures Valid() && runtime.active == old(runtime.active) - {camera}
      ensures Infos(buffer.queue) ==
        if camera in old(runtime.active) then Without(Infos(old(buffer.queue)), camera) else Infos(old(buffer.queue))
      ensures ops == if camera in old(runtime.active) then old(ops) + [Discard(camera)] else old(ops)
      ensures camera in old(runtime.active) ==>
        && camera !in runtime.synchronizer.latest && runtime.GroupSeenLately(now, None)
        && AcceptedSince(buffer.policy, buffer.maxsize, ops, camera) == []
        && runtime.lastSeen == old(runtime.lastSeen) - {camera}
        && runtime.table.controls == old(runtime.table.controls) - {camera}
        && runtime.table.manager.orchestrators == old(runtime.table.manager.orchestrators) - {camera}
      ensures camera !in old(runtime.active) ==>
        && runtime.lastSeen == old(runtime.lastSeen) && runtime.table.controls == old(runtime.table.controls)
        && runtime.table.manager.orchestrators == old(runtime.table.manager.orchestrators)
    {
      hide Owned, Without, Recorded, Infos, AcceptedSince;
      if camera !in runtime.active {
        return;
      }
      RunsQueue();
      DiscardQueued(camera);
      Forget(camera, now);
      NoteRemoval(camera, Infos(old(buffer.queue)), old(runtime.syncIds), old(runtime.submitted));
    }

    /** A sync of the inference controls touches neither queue nor group. */
    method SyncInferenceControls(records: seq<CameraRecord>)
      requires Valid()
      modifies runtime.table, runtime.table.manager
      ensures Valid()
      ensures runtime.active == map[] ==>
        runtime.table.controls == old(runtime.table.controls)
        && runtime.table.manager.orchestrators == old(runtime.table.manager.orchestrators)
      ensures runtime.active != map[] && runtime.table.behaviorInference ==>
        runtime.table.controls == WantedControls(ById(records), runtime.active.Keys, runtime.table.defaultStrategy)
      ensures runtime.active != map[] && !runtime.table.behaviorInference ==> runtime.table.controls == map[]
      ensures runtime.active != map[] ==>
        runtime.table.manager.orchestrators
          == runtime.Remaining(records, old(runtime.table.controls), old(runtime.table.manager.orchestrators))
    {
      hide Owned, OpenCvPipelineRuntime.Valid, FrameBuffer.Valid, MultiCameraSynchronizer.Valid, WantedControls,
        RunningAfter, Recorded;
      Parts();
      runtime.SyncInferenceControls(records);
      RunLoopStep();
    }

    /** The queue's half of the removals in a refresh. */
    method DiscardStale(stale: set<string>) returns (ghost discards: seq<Op>)
      requires Owned() && BoundedQueue.Run(buffer.policy, buffer.maxsize, ops).queue == Infos(buffer.queue)
      modifies buffer`queue, buffer.queue, if runtime.pool == null then {} else {runtime.pool}
      ensures Owned()
      ensures Infos(buffer.queue) == Filter(Infos(old(buffer.queue)), NotFromAny(stale))
      ensures BoundedQueue.Run(buffer.policy, buffer.maxsize, ops + discards).queue == Infos(buffer.queue)
      ensures forall op :: op in discards ==> op.Discard? && op.camera in stale
      ensures forall c :: c in stale ==> Discard(c) in discards
    {
      hide Owned, Infos, BoundedQueue.Run, Without;
      var todo := stale;
      discards := [];
      FilterIsExact(Infos(buffer.queue), NotFromAny({}));
      assert stale - todo == {} && ops + discards == ops;
      while todo != {}
        invariant todo <= stale && Owned()
        invariant forall p :: p in buffer.queue ==> p in old(buffer.queue)
        invariant Infos(buffer.queue) == Filter(Infos(old(buffer.queue)), NotFromAny(stale - todo))
        invariant BoundedQueue.Run(buffer.policy, buffer.maxsize, ops + discards).queue == Infos(buffer.queue)
        invariant forall op :: op in discards ==> op.Discard? && op.camera in stale
        invariant forall c :: c in stale - todo ==> Discard(c) in discards
        decreases todo
      {
        var c :| c in todo;
        StaleButOne(Infos(old(buffer.queue)), stale - todo, c, stale - (todo - {c}));
        RunDiscard(buffer.policy, buffer.maxsize, ops + discards, c);
        assert ops + discards + [Discard(c)] == ops + (discards + [Discard(c)]);
        todo, discards := todo - {c}, discards + [Discard(c)];
        assert forall i :: 0 <= i < |buffer.queue| ==> buffer.queue[i] in old(buffer.queue);
        DiscardQueued(c);
      }
      assert stale - todo == stale;
    }

    /** `refresh_cameras`. The code discards each removed camera's packets as it removes the camera;
        queue and group are apart, so in one step the order does not show. Afterwards the queue
        holds exactly the packets of cameras that stayed as they were, in order, besides those of
        cameras that were never active, and the cameras that are gone or restarted count anew. */
    method RefreshCameras(records: seq<CameraRecord>, clock: string -> int, now: int)
      requires Valid()
      modifies this`ops, this`formed, buffer`queue, buffer.queue
      modifies runtime`active, runtime`lastSeen, runtime`sightings, runtime`capturing, runtime`nextWorker
      modifies runtime`syncIds, runtime`submitted, runtime`synchronizer
      modifies runtime.synchronizer, runtime.synchronizer.Held(), runtime.table, runtime.table.manager
      modifies if runtime.pool == null then {} else {runtime.pool}
      ensures Valid()
      ensures Sources(runtime.active) == Targets(records) && ListedOnly(runtime.active, old(runtime.active), records)
      ensures runtime.table.controls ==
        if runtime.table.behaviorInference
        then WantedControls(ById(records), runtime.active.Keys, runtime.table.defaultStrategy) else map[]
      ensures runtime.active != old(runtime.active) ==> runtime.GroupSeenLately(now, None)
      ensures var gone := old(runtime.active).Keys - Unchanged(old(runtime.active), Targets(records)).Keys;
              && Infos(buffer.queue) == Filter(Infos(old(buffer.queue)), NotFromAny(gone))
              && (forall c :: c in gone ==> AcceptedSince(buffer.policy, buffer.maxsize, ops, c) == [])
    {
      hide Owned, Recorded, Infos, Unchanged, Targets, Sources, AcceptedSince, ListedOnly, SeenLately, ById,
        WantedControls;
      RunsQueue();
      var gone := runtime.active.Keys - Unchanged(runtime.active, Targets(records)).Keys;
      ghost var discards := DiscardStale(gone);
      Refresh(records, clock, now);
      RecordRemovals(buffer.policy, buffer.maxsize, ops, formed, Infos(old(buffer.queue)), old(runtime.syncIds),
                     old(runtime.submitted), discards, runtime.syncIds, runtime.submitted);
      forall c | c in gone ensures AcceptedSince(buffer.policy, buffer.maxsize, ops + discards, c) == [] {
        CountsAnew(buffer.policy, buffer.maxsize, ops, discards, c);
      }
      Note(discards, if runtime.submitted == [] then |ops + discards| else formed);
    }

    lemma RunsQueue()
      requires Valid()
      ensures BoundedQueue.Run(buffer.policy, buffer.maxsize, ops).queue == Infos(buffer.queue)
    {
    }

    /** The run loop's half of a refresh. */
    method Refresh(records: seq<CameraRecord>, clock: string -> int, now: int)
      requires Owned()
      modifies runtime`active, runtime`lastSeen, runtime`sightings, runtime`capturing, runtime`nextWorker
      modifies runtime`syncIds, runtime`submitted, runtime`synchronizer
      modifies runtime.synchronizer, runtime.synchronizer.Held(), runtime.table, runtime.table.manager
      modifies if runtime.pool == null then {} else {runtime.pool}
      ensures Owned() && Sources(runtime.active) == Targets(records)
      ensures ListedOnly(runtime.active, old(runtime.active), records)
      ensures runtime.table.controls ==
        if runtime.table.behaviorInference
        then WantedControls(ById(records), runtime.active.Keys, runtime.table.defaultStrategy) else map[]
      ensures runtime.active != old(runtime.active) ==> runtime.GroupSeenLately(now, None)
      ensures KeptOrNew(old(runtime.active).Keys - Unchanged(old(runtime.active), Targets(records)).Keys)
    {
      hide Owned, OpenCvPipelineRuntime.Valid, FrameBuffer.Valid, MultiCameraSynchronizer.Valid, Healthy, SlotsOf,
        OpenCvPipelineRuntime.OtherSlots, OpenCvPipelineRuntime.Remaining, Sources, Targets, Completed,
        WantedControls, Unchanged, ListedOnly, SeenLately, ById;
      Parts();
      runtime.RefreshCameras(records, clock, now);
      assert forall c :: c in runtime.syncIds ==> c in SetOf(runtime.syncIds);
      RunLoopStep();
    }
  }

  lemma StaleButOne(queue: seq<FrameInfo>, done: set<string>, c: string, more: set<string>)
    requires more == done + {c}
    ensures Without(Filter(queue, NotFromAny(done)), c) == Filter(queue, NotFromAny(more))
  {
    FilterTwice(queue, NotFromAny(done), NotFrom(c), NotFromAny(more));
  }

  function NotFromAny(cameras: set<string>): FrameInfo -> bool {
    (f: FrameInfo) => f.camera !in cameras
  }

  lemma {:induction false} SlotsInSize(states: map<string, ClockState>)
    ensures |SlotsIn(states)| <= |states|
    decreases |states|
  {
    if states == map[] {
      assert SlotsIn(states) == {};
    } else {
      var c :| c in states;
      SlotsInSize(states - {c});
      SlotsAfterRemoval(states, c);
      assert |states - {c}| == |states| - 1;
    }
  }

  lemma {:induction false} SubsetSize<T>(a: set<T>, b: set<T>)
    requires a <= b
    ensures |a| <= |b|
  {
    assert |b| == |a| + |b - a| by {
      assert a + (b - a) == b;
    }
  }
}
