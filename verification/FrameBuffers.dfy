/** The packet objects and the bounded buffer between capture threads and the run loop. */
module FrameBuffers {
  import opened Collections
  import opened Contracts
  import opened SlotPool
  import opened BoundedQueue

  /** One captured frame. `store` and `slot` are its release hook; without a store it has none. */
  class FramePacket {
    const info: FrameInfo
    const store: SharedMemoryFrameStore?
    const slot: nat
    var released: bool

    constructor (info: FrameInfo, store: SharedMemoryFrameStore?, slot: nat)
      ensures this.info == info && this.store == store && this.slot == slot && !released
    {
      this.info, this.store, this.slot, released := info, store, slot, false;
    }

    /** What releasing the packet may change besides the packet. */
    ghost function Hook(): set<object> {
      if store == null then {} else {store}
    }

    /** The hook runs the first time only. */
    method Release()
      requires store != null ==> store.Valid()
      modifies this, Hook()
      ensures released
      ensures store != null ==>
        && store.Valid()
        && store.View() == (if old(released) then old(store.View()) else old(store.View()).Release(slot))
        && store.inUse == old(store.inUse) - (if old(released) then {} else {slot})
        && store.blocks == old(store.blocks)
    {
      if released {
        return;
      }
      released := true;
      if store != null {
        store.Release(slot);
      }
    }
  }

  function Infos(queue: seq<FramePacket>): seq<FrameInfo> {
    seq(|queue|, i requires 0 <= i < |queue| => queue[i].info)
  }

  ghost function SlotsOf(queue: seq<FramePacket>): set<nat> {
    set p | p in queue :: p.slot
  }

  lemma {:induction false} DiscardSlots(queue: seq<FramePacket>, camera: string)
    requires DistinctSlots(queue)
    ensures SlotsOf(Kept(queue, camera)) !! SlotsOf(Dropped(queue, camera))
    ensures SlotsOf(queue) == SlotsOf(Kept(queue, camera)) + SlotsOf(Dropped(queue, camera))
    ensures DistinctSlots(Kept(queue, camera))
  {
    hide SlotsOf, DistinctSlots;
    if queue == [] {
      SlotsOfNothing();
    } else {
      var rest := queue[1..];
      var kept, dropped := Kept(rest, camera), Dropped(rest, camera);
      assert queue[0].slot !in SlotsOf(rest) && DistinctSlots(rest) by {
        HeadSlotIsDistinct(queue);
      }
      DiscardSlots(rest, camera);
      SlotsOfTailAndAppend(queue, queue[0]);
      SlotsOfTailAndAppend(kept, queue[0]);
      SlotsOfTailAndAppend(dropped, queue[0]);
      KeptSlotsDistinct(queue[0], kept);
      assert [] + kept == kept && [] + dropped == dropped;
    }
  }

  lemma SlotsOfNothing()
    ensures SlotsOf([]) == {} && DistinctSlots([])
  {
  }

  lemma HeadSlotIsDistinct(queue: seq<FramePacket>)
    requires DistinctSlots(queue) && queue != []
    ensures queue[0].slot !in SlotsOf(queue[1..]) && DistinctSlots(queue[1..])
  {
  }

  lemma KeptSlotsDistinct(p: FramePacket, rest: seq<FramePacket>)
    requires DistinctSlots(rest) && p.slot !in SlotsOf(rest)
    ensures DistinctSlots([p] + rest)
  {
    forall i | 0 <= i < |rest| ensures rest[i].slot != p.slot {
      assert rest[i] in rest;
    }
  }

  /** The slots of those packets that are not released yet. */
  ghost function LiveSlots(packets: seq<FramePacket>): set<nat>
    reads packets
  {
    set p | p in packets && !p.released :: p.slot
  }

  /** Release packets one after the other. */
  method ReleaseAll(packets: seq<FramePacket>, ghost pool: SharedMemoryFrameStore?)
    requires forall p :: p in packets ==> p.store == pool
    requires pool != null ==> pool.Valid()
    modifies packets, if pool == null then {} else {pool}
    ensures forall p :: p in packets ==> p.released
    ensures pool != null ==>
      && pool.Valid()
      && pool.inUse == old(pool.inUse) - old(LiveSlots(packets))
      && pool.blocks == old(pool.blocks)
  {
    hide Slots.Valid;
    var i := 0;
    while i < |packets|
      invariant 0 <= i <= |packets|
      invariant forall p :: p in packets ==> (p.released <==> old(p.released) || p in packets[..i])
      invariant pool != null ==>
        && pool.Valid()
        && pool.inUse == old(pool.inUse) - (set p | p in packets[..i] && !old(p.released) :: p.slot)
        && pool.blocks == old(pool.blocks)
    {
      packets[i].Release();
      i := i + 1;
    }
    assert packets[..i] == packets;
  }

  function NotOf(camera: string): FramePacket -> bool {
    (p: FramePacket) => p.info.camera != camera
  }

  function Of(camera: string): FramePacket -> bool {
    (p: FramePacket) => p.info.camera == camera
  }

  function Kept(queue: seq<FramePacket>, camera: string): seq<FramePacket> {
    Filter(queue, NotOf(camera))
  }

  function Dropped(queue: seq<FramePacket>, camera: string): seq<FramePacket> {
    Filter(queue, Of(camera))
  }

  lemma KeptAndDropped(queue: seq<FramePacket>, camera: string)
    ensures Infos(Kept(queue, camera)) == Without(Infos(queue), camera)
    ensures forall p :: p in Kept(queue, camera) <==> p in queue && p.info.camera != camera
    ensures forall p :: p in Dropped(queue, camera) <==> p in queue && p.info.camera == camera
    ensures |Kept(queue, camera)| + |Dropped(queue, camera)| == |queue|
    ensures NoDuplicates(queue) ==> NoDuplicates(Kept(queue, camera))
  {
    InfosKept(queue, camera);
    FilterIsExact(queue, NotOf(camera));
    FilterIsExact(queue, Of(camera));
    if NoDuplicates(queue) {
      FilterKeepsDistinct(queue, NotOf(camera));
    }
  }

  lemma {:induction false} InfosKept(queue: seq<FramePacket>, camera: string)
    ensures Infos(Kept(queue, camera)) == Without(Infos(queue), camera)
    ensures |Kept(queue, camera)| + |Dropped(queue, camera)| == |queue|
  {
    if queue != [] {
      InfosKept(queue[1..], camera);
      var head, rest := [queue[0]], Kept(queue[1..], camera);
      assert Infos(queue) == [queue[0].info] + Infos(queue[1..]);
      assert Infos(head + rest) == [queue[0].info] + Infos(rest);
    }
  }

  lemma InfosOfTailAndAppend(queue: seq<FramePacket>, p: FramePacket)
    ensures Infos(queue + [p]) == Infos(queue) + [p.info]
    ensures queue != [] ==> Infos(queue[1..]) == Infos(queue)[1..]
  {
  }

  lemma SlotsOfTailAndAppend(queue: seq<FramePacket>, p: FramePacket)
    ensures SlotsOf(queue + [p]) == SlotsOf(queue) + {p.slot} == SlotsOf([p] + queue)
    ensures queue != [] ==> SlotsOf(queue) == {queue[0].slot} + SlotsOf(queue[1..])
  {
  }

  ghost predicate DistinctSlots(queue: seq<FramePacket>) {
    forall i, j :: 0 <= i < j < |queue| ==> queue[i].slot != queue[j].slot
  }

  lemma {:induction false} SlotsOfSize(queue: seq<FramePacket>)
    requires DistinctSlots(queue)
    ensures |SlotsOf(queue)| == |queue|
  {
    if queue != [] {
      SlotsOfSize(queue[1..]);
      SlotsOfTailAndAppend(queue, queue[0]);
      assert queue[0].slot !in SlotsOf(queue[1..]);
    }
  }

  class FrameBuffer {
    const maxsize: nat
    const policy: DropPolicy
    var store: SharedMemoryFrameStore?
    var queue: seq<FramePacket>

    /** With shared memory every queued packet owns a slot of its own and shows its own pixels. */
    ghost predicate Valid()
      reads this, store, queue
    {
      && 1 <= maxsize
      && |queue| <= maxsize
      && (forall p :: p in queue ==> !p.released && p.store == store)
      && NoDuplicates(queue)
      && (store != null ==>
        && store.Valid()
        && (forall p :: p in queue ==>
             p.slot in store.inUse && p.slot in store.blocks && store.blocks[p.slot] == p.info.frame)
        && DistinctSlots(queue))
    }

    /** Slots in use by packets that have left the queue: with the consumer or the synchronizer. */
    ghost function HeldElsewhere(): set<nat>
      reads this, store
    {
      if store == null then {} else store.inUse - SlotsOf(queue)
    }

    constructor (maxsize: int, policy: DropPolicy, store: SharedMemoryFrameStore?)
      requires store != null ==> store.Valid()
      ensures Valid() && queue == [] && this.store == store && this.policy == policy
      ensures this.maxsize == if maxsize < 1 then 1 else maxsize
    {
      this.maxsize := if maxsize < 1 then 1 else maxsize;
      this.policy, this.store, queue := policy, store, [];
    }

    ghost function Pool(): set<object>
      reads this
    {
      if store == null then {} else {store}
    }

    /** Drop the oldest queued packet: its slot, and nothing else, becomes free. */
    method EvictOldest()
      requires Valid() && queue != []
      modifies this`queue, queue[0], Pool()
      ensures Valid() && queue == old(queue)[1..]
      ensures old(queue[0]).released && old(queue[0]) !in queue
      ensures store != null ==>
        && store.inUse == old(store.inUse) - {old(queue[0]).slot}
        && store.blocks == old(store.blocks)
        && old(queue[0]).slot in old(store.inUse)
        && HeldElsewhere() == old(HeldElsewhere())
    {
      hide Slots.Valid, Slots.Release;
      SlotsOfTailAndAppend(queue, queue[0]);
      var dropped := queue[0];
      queue := queue[1..];
      dropped.Release();
    }

    /** A packet that may join the queue: unreleased, with its pixels in a slot no queued packet has. */
    ghost predicate Ready(p: FramePacket)
      reads this, store, p
    {
      && !p.released && p.store == store && p !in queue
      && (store != null ==>
        && p.slot in store.inUse && p.slot in store.blocks && store.blocks[p.slot] == p.info.frame
        && p.slot !in SlotsOf(queue))
    }

    /** Acquire a slot, copy the frame in and wrap it. */
    method FillSlot(info: FrameInfo) returns (queued: FramePacket?)
      requires Valid() && store != null
      modifies store
      ensures Valid() && (queued == null <==> old(|store.inUse|) == store.maxSlots)
      ensures queued == null ==> store.View() == old(store.View())
      ensures queued != null ==>
        && fresh(queued) && Ready(queued) && queued.info == info
        && queued.slot !in old(store.inUse)
        && store.inUse == old(store.inUse) + {queued.slot}
        && HeldElsewhere() == old(HeldElsewhere()) + {queued.slot}
      ensures forall k :: k in old(store.inUse) ==>
        k in store.blocks && k in old(store.blocks) && store.blocks[k] == old(store.blocks[k])
    {
      hide Valid, Slots.Valid, SlotsOf, HeldElsewhere;
      QueuedSlots();
      var slot := store.Fill(info.frame);
      SlotFilled(slot);
      if slot.None? {
        return null;
      }
      queued := new FramePacket(info, store, slot.value);
    }

    /** Filling a slot nobody used leaves the queue as it was and counts as held elsewhere. */
    twostate lemma SlotFilled(slot: Option<nat>)
      requires old(Valid()) && unchanged(this) && unchanged(queue) && store != null && store.Valid()
      requires slot.None? ==> store.inUse == old(store.inUse)
      requires slot.Some? ==> slot.value !in old(store.inUse) && store.inUse == old(store.inUse) + {slot.value}
      requires forall k :: k in old(store.inUse) && k in old(store.blocks) ==>
        k in store.blocks && store.blocks[k] == old(store.blocks[k])
      ensures Valid()
      ensures slot.None? ==> HeldElsewhere() == old(HeldElsewhere())
      ensures slot.Some? ==> slot.value !in SlotsOf(queue) && HeldElsewhere() == old(HeldElsewhere()) + {slot.value}
    {
      hide Slots.Valid, DistinctSlots, NoDuplicates;
      assert SlotsOf(queue) <= old(store.inUse);
    }

    lemma Known()
      requires Valid()
      ensures 1 <= maxsize && |queue| <= maxsize
      ensures forall p :: p in queue ==> !p.released && p.store == store
      ensures store == null ==> HeldElsewhere() == {}
      ensures store != null ==> store.Valid() && HeldElsewhere() <= store.inUse <= store.blocks.Keys
    {
      if store != null {
        QueuedSlots();
      }
      hide Slots.Valid;
    }

    lemma QueuedSlots()
      requires Valid() && store != null
      ensures SlotsOf(queue) <= store.inUse <= store.blocks.Keys && store.Valid()
    {
      store.InUseIsAllocated();
      hide Slots.Valid;
    }

    ghost predicate NoSlot()
      reads this, store
    {
      store != null && |store.inUse| == store.maxSlots
    }

    /** `_prepare_packet`: without shared memory the packet as it is; otherwise a packet over a slot
        of its own, for which the oldest queued packet may have to go. `null` turns it away. */
    method PreparePacket(packet: FramePacket) returns (queued: FramePacket?)
      requires Valid() && !packet.released && packet.store == null && packet !in queue
      modifies this`queue, queue, Pool()
      ensures Valid()
      ensures queued != null ==> Ready(queued) && queued.info == packet.info && (queued == packet || fresh(queued))
      ensures store == null ==> queued == packet && queue == old(queue)
      ensures store != null && packet.info.frame.shape != store.frameShape ==> queued == null
      ensures queued == null ==> queue == old(queue) && HeldElsewhere() == old(HeldElsewhere())
      ensures store != null ==>
        && (queued != null <==> Fits(packet) && (!old(NoSlot()) || (policy == DropOldest && old(queue) != [])))
        && (queued != null ==>
             && queue == (if old(NoSlot()) then old(queue)[1..] else old(queue))
             && queued.slot !in old(HeldElsewhere())
             && HeldElsewhere() == old(HeldElsewhere()) + {queued.slot})
        && (forall k :: k in old(HeldElsewhere()) ==>
             k in store.blocks && k in old(store.blocks) && store.blocks[k] == old(store.blocks[k]))
      ensures forall p :: p in old(queue) ==> (p.released <==> p !in queue)
    {
      hide Slots.Valid;
      if store == null {
        return packet;
      }
      store.InUseIsAllocated();
      if packet.info.frame.shape != store.frameShape {
        return null;
      }
      queued := FillSlot(packet.info);
      if queued != null || policy != DropOldest || queue == [] {
        return;
      }
      EvictOldest();
      queued := FillSlot(packet.info);
    }

    predicate Fits(packet: FramePacket)
      reads this
    {
      store == null || packet.info.frame.shape == store.frameShape
    }

    /** Put a ready packet at the end of the queue. */
    method Append(queued: FramePacket)
      requires Valid() && Ready(queued) && |queue| < maxsize
      modifies this`queue
      ensures Valid() && queue == old(queue) + [queued]
      ensures Infos(queue) == Infos(old(queue)) + [queued.info]
      ensures store != null ==> HeldElsewhere() == old(HeldElsewhere()) - {queued.slot}
    {
      hide Valid, HeldElsewhere, Ready;
      InfosOfTailAndAppend(queue, queued);
      queue := queue + [queued];
      Appended(queued);
    }

    twostate lemma Appended(queued: FramePacket)
      requires old(allocated(queued)) && old(Valid()) && old(Ready(queued)) && |old(queue)| < maxsize
      requires queue == old(queue) + [queued]
      requires store == old(store) && unchanged(old(queue)) && unchanged(queued) && (store != null ==> unchanged(store))
      ensures Valid()
      ensures store != null ==> HeldElsewhere() == old(HeldElsewhere()) - {queued.slot}
    {
      hide Slots.Valid;
      SlotsOfTailAndAppend(old(queue), queued);
    }

    /** The queueing half of `publish`, for a packet that is ready. */
    method Enqueue(queued: FramePacket) returns (outcome: Outcome)
      requires Valid() && Ready(queued) && (policy == Block ==> |queue| < maxsize)
      modifies this`queue, queue, queued, Pool()
      ensures Valid()
      ensures (outcome, Infos(queue)) == AfterPublish(policy, maxsize, Infos(old(queue)), queued.info, false)
      ensures forall p :: p in old(queue) ==> (p.released <==> p !in queue)
      ensures queued.released <==> queued !in queue
      ensures forall p :: p in queue ==> p in old(queue) || p == queued
      ensures store != null ==>
        HeldElsewhere() == old(HeldElsewhere()) - {queued.slot} && store.blocks == old(store.blocks)
    {
      hide Slots.Valid;
      if |queue| < maxsize {
        Append(queued);
        return Published;
      }
      if policy == DropNewest {
        queued.Release();
        return Rejected;
      }
      InfosOfTailAndAppend(queue, queued);
      EvictOldest();
      Append(queued);
      return Published;
    }

    lemma SlotCount()
      requires Valid() && store != null
      ensures |store.inUse| == |queue| + |HeldElsewhere()|
    {
      hide Slots.Valid;
      SlotsOfSize(queue);
      assert store.inUse == SlotsOf(queue) + HeldElsewhere();
    }

    /** Dropping the oldest never fails for want of a slot unless the packets outside the queue
        have them all - and then it always does. */
    lemma DropOldestProgress(info: FrameInfo)
      requires Valid() && store != null && policy == DropOldest
      ensures AfterPublish(policy, maxsize, Infos(queue), info, NoSlot()).0 == Published
        <==> |HeldElsewhere()| < store.maxSlots
    {
      SlotCount();
      store.View().Partition();
    }

    /** `publish`, as one step. The queue becomes what `AfterPublish` says; packets that leave it
        are released and no others; slots held outside the queue stay held, with their pixels. */
    method Publish(packet: FramePacket) returns (outcome: Outcome)
      requires Valid() && !packet.released && packet.store == null && packet !in queue
      modifies this`queue, queue, packet, Pool()
      ensures Valid()
      ensures (outcome, Infos(queue)) ==
        if !old(Fits(packet)) then (Rejected, Infos(old(queue)))
        else AfterPublish(policy, maxsize, Infos(old(queue)), packet.info, old(NoSlot()))
      ensures store != null && packet.info.frame.shape != store.frameShape ==> outcome == Rejected
      ensures forall p :: p in old(queue) ==> (p.released <==> p !in queue)
      ensures forall p :: p in queue ==> p in old(queue) || p == packet || fresh(p)
      ensures HeldElsewhere() == old(HeldElsewhere())
      ensures store != null ==> forall k :: k in HeldElsewhere() ==>
        k in store.blocks && k in old(store.blocks) && store.blocks[k] == old(store.blocks[k])
    {
      hide Valid, Slots.Valid, HeldElsewhere, Ready;
      Known();
      if policy == Block && Fits(packet) && |queue| >= maxsize {
        return Waiting;
      }
      if queue != [] {
        InfosOfTailAndAppend(queue, packet);
      }
      var queued := PreparePacket(packet);
      if queued == null {
        return if policy == Block && Fits(packet) then Waiting else Rejected;
      }
      outcome := Enqueue(queued);
      Known();
    }

    /** `get` when a packet is there; `None` is where the run loop would wait. */
    method Get() returns (p: Option<FramePacket>)
      requires Valid()
      modifies this`queue
      ensures Valid()
      ensures p.None? <==> old(queue) == []
      ensures p.None? ==> queue == old(queue)
      ensures p.Some? ==>
        && p.value == old(queue[0]) && queue == old(queue)[1..]
        && !p.value.released && p.value !in queue
        && (store != null ==>
             && HeldElsewhere() == old(HeldElsewhere()) + {p.value.slot}
             && p.value.slot !in old(HeldElsewhere())
             && p.value.slot in store.blocks && store.blocks[p.value.slot] == p.value.info.frame)
    {
      hide Valid, HeldElsewhere;
      if queue == [] {
        return None;
      }
      p := Some(queue[0]);
      queue := queue[1..];
      HeadLeft();
    }

    /** What holds when the head has left the queue, and nothing else has changed. */
    twostate lemma HeadLeft()
      requires old(Valid()) && old(queue) != [] && queue == old(queue)[1..]
      requires store == old(store) && unchanged(old(queue)) && (store != null ==> unchanged(store))
      ensures Valid()
      ensures var p := old(queue[0]);
              && !p.released && p !in queue
              && (store != null ==>
                   && HeldElsewhere() == old(HeldElsewhere()) + {p.slot}
                   && p.slot !in old(HeldElsewhere())
                   && p.slot in store.blocks && store.blocks[p.slot] == p.info.frame)
    {
      hide Slots.Valid;
      var before, p := old(queue), old(queue[0]);
      assert before[0] in before && forall q :: q in queue ==> q in before;
      SlotsOfTailAndAppend(before, p);
    }

    /** `discard_camera`: all and only the camera's packets leave the queue and are released. */
    method DiscardCamera(camera: string) returns (count: nat)
      requires Valid()
      modifies this`queue, queue, Pool()
      ensures Valid()
      ensures queue == Kept(old(queue), camera) && Infos(queue) == Without(Infos(old(queue)), camera)
      ensures count == |old(queue)| - |queue|
      ensures forall p :: p in old(queue) ==> (p.released <==> p !in queue)
      ensures HeldElsewhere() == old(HeldElsewhere())
      ensures store != null ==> store.blocks == old(store.blocks)
    {
      hide Slots.Valid;
      var kept, removed := Split(camera);
      KeptAndDropped(queue, camera);
      if store != null {
        DiscardSlots(queue, camera);
      }
      queue := kept;
      assert forall i :: 0 <= i < |removed| ==> removed[i] in old(queue);
      ReleaseAll(removed, store);
      count := |removed|;
    }

    /** The loop of `discard_camera`, under the queue's lock. */
    method Split(camera: string) returns (kept: seq<FramePacket>, removed: seq<FramePacket>)
      ensures kept == Kept(queue, camera) && removed == Dropped(queue, camera)
    {
      kept, removed := [], [];
      var i := 0;
      while i < |queue|
        invariant 0 <= i <= |queue|
        invariant kept + Kept(queue[i..], camera) == Kept(queue, camera)
        invariant removed + Dropped(queue[i..], camera) == Dropped(queue, camera)
      {
        if queue[i].info.camera == camera {
          removed := removed + [queue[i]];
        } else {
          kept := kept + [queue[i]];
        }
        i := i + 1;
      }
    }

    /** `close`: everything queued is released and the pool is given up. */
    method Close()
      requires Valid()
      modifies this, queue, Pool()
      ensures Valid() && queue == [] && store == null
      ensures forall p :: p in old(queue) ==> p.released
      ensures old(store) != null ==> old(store).Valid() && old(store).inUse == {} && old(store).blocks == map[]
    {
      hide Slots.Valid;
      var packets := queue;
      queue := [];
      ReleaseAll(packets, store);
      if store != null {
        store.Close();
        store := null;
      }
    }
  }
}
