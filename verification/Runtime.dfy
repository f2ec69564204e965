/** The run loop's own state: active cameras, their workers, the sync group and the control table. */
module Runtime {
  import opened Collections
  import opened SlotPool
  import BoundedQueue
  import opened FrameBuffers
  import opened Synchronizer
  import opened CameraOrder
  import opened InferenceControl

  /** `worker` is the number the camera's capture worker was started under. */
  datatype ActiveCamera = ActiveCamera(source: string, worker: nat)

  /** What the run loop learns of cameras, in order: a packet came at a time, or the camera was removed. */
  datatype Sighting = Seen(camera: string, at: int) | Removed(camera: string)

  /** Entry `k` is the last one about the camera. */
  ghost predicate LastWord(h: seq<Sighting>, k: int, camera: string) {
    0 <= k < |h| && h[k].camera == camera && forall j :: k < j < |h| ==> h[j].camera != camera
  }

  /** The table of last times has exactly the cameras whose last word is a packet, with its time. */
  ghost predicate TimesAgree(lastSeen: map<string, int>, h: seq<Sighting>) {
    && (forall c :: c in lastSeen ==> exists k :: LastWord(h, k, c) && h[k] == Seen(c, lastSeen[c]))
    && (forall k :: 0 <= k < |h| && LastWord(h, k, h[k].camera) && h[k].Seen? ==>
         h[k].camera in lastSeen && lastSeen[h[k].camera] == h[k].at)
  }

  /** A sorted group by what was seen of its cameras: besides the current one, which is in it if it is
      active, exactly those whose last packet is no older than the limit. */
  ghost predicate SeenLately(group: seq<string>, active: set<string>, h: seq<Sighting>, reference: int,
                             current: Option<string>, staleAfter: int) {
    && (forall c :: c in active && current == Some(c) ==> c in group)
    && (forall c :: c in group && current != Some(c) ==>
         exists k :: LastWord(h, k, c) && h[k].Seen? && reference - h[k].at <= staleAfter)
    && (forall k :: 0 <= k < |h| && LastWord(h, k, h[k].camera) && h[k].Seen? && reference - h[k].at <= staleAfter ==>
         h[k].camera in group)
  }

  lemma WordAdded(h: seq<Sighting>, w: Sighting, k: int, c: string)
    ensures LastWord(h + [w], k, c) <==> if c == w.camera then k == |h| else LastWord(h, k, c)
  {
    var longer := h + [w];
    assert longer[|h|] == w && forall j :: 0 <= j < |h| ==> longer[j] == h[j];
  }

  lemma TimesAfterPacket(lastSeen: map<string, int>, h: seq<Sighting>, c: string, at: int)
    requires TimesAgree(lastSeen, h)
    ensures TimesAgree(lastSeen[c := at], h + [Seen(c, at)])
  {
    TimesAfterWord(lastSeen, lastSeen[c := at], h, Seen(c, at));
  }

  lemma TimesAfterRemoval(lastSeen: map<string, int>, h: seq<Sighting>, c: string)
    requires TimesAgree(lastSeen, h)
    ensures TimesAgree(lastSeen - {c}, h + [Removed(c)])
  {
    TimesAfterWord(lastSeen, lastSeen - {c}, h, Removed(c));
  }

  lemma TimesAfterWord(before: map<string, int>, after: map<string, int>, h: seq<Sighting>, w: Sighting)
    requires TimesAgree(before, h)
    requires forall c :: c != w.camera ==> Lookup(after, c) == Lookup(before, c)
    requires if w.Seen? then w.camera in after && after[w.camera] == w.at else w.camera !in after
    ensures TimesAgree(after, h + [w])
  {
    var longer := h + [w];
    forall k, c ensures LastWord(longer, k, c) <==> if c == w.camera then k == |h| else LastWord(h, k, c) {
      WordAdded(h, w, k, c);
    }
    forall c | c in after ensures exists k :: LastWord(longer, k, c) && longer[k] == Seen(c, after[c]) {
      if c == w.camera {
        assert LastWord(longer, |h|, c) && longer[|h|] == w;
      } else {
        assert Lookup(after, c) == Lookup(before, c);
        var k :| LastWord(h, k, c) && h[k] == Seen(c, before[c]);
        assert LastWord(longer, k, c) && longer[k] == h[k];
      }
    }
    forall k | 0 <= k < |longer| && LastWord(longer, k, longer[k].camera) && longer[k].Seen?
      ensures longer[k].camera in after && after[longer[k].camera] == longer[k].at {
      if k < |h| {
        assert longer[k] == h[k] && LastWord(h, k, h[k].camera);
        assert Lookup(after, h[k].camera) == Lookup(before, h[k].camera);
      }
    }
  }

  function Sources(active: map<string, ActiveCamera>): map<string, string> {
    map c | c in active :: active[c].source
  }

  function Targets(records: seq<CameraRecord>): map<string, string> {
    var byId := ById(records);
    map c | c in byId :: byId[c].source
  }

  /** Cameras that belong in the sync group: seen lately, or the one a packet just came from. */
  function Healthy(active: set<string>, lastSeen: map<string, int>, reference: int, current: Option<string>,
                   staleAfter: int)
    : set<string>
  {
    set c | c in active && (current == Some(c) || (c in lastSeen && reference - lastSeen[c] <= staleAfter))
  }

  lemma HealthyAreActive(active: set<string>, lastSeen: map<string, int>, reference: int, current: Option<string>,
                         staleAfter: int)
    ensures Healthy(active, lastSeen, reference, current, staleAfter) <= active
  {
  }

  /** The healthy cameras are the ones seen lately. */
  lemma HealthyWereSeenLately(group: seq<string>, active: set<string>, lastSeen: map<string, int>, h: seq<Sighting>,
                              reference: int, current: Option<string>, staleAfter: int)
    requires TimesAgree(lastSeen, h) && lastSeen.Keys <= active
    requires SetOf(group) == Group(Healthy(active, lastSeen, reference, current, staleAfter), current)
    ensures SeenLately(group, active, h, reference, current, staleAfter)
  {
    hide LastWord;
    var healthy := Healthy(active, lastSeen, reference, current, staleAfter);
    forall c ensures c in group <==> c in Group(healthy, current) {
      assert c in group <==> c in SetOf(group);
    }
    forall k | 0 <= k < |h| && LastWord(h, k, h[k].camera) && h[k].Seen? && reference - h[k].at <= staleAfter
      ensures h[k].camera in group {
      assert h[k].camera in healthy;
    }
  }

  /** Of two packets of two cameras, nothing said of the first camera in between: when the second
      comes, the first camera is in the group exactly if its packet is no older than the limit. */
  lemma InGroupIff(group: seq<string>, active: set<string>, h: seq<Sighting>, reference: int,
                   current: Option<string>, staleAfter: int, c: string, at: int, k: int)
    requires SeenLately(group, active, h, reference, current, staleAfter) && current != Some(c)
    requires LastWord(h, k, c) && h[k] == Seen(c, at)
    ensures c in group <==> reference - at <= staleAfter
  {
    if c in group {
      var j :| LastWord(h, j, c) && h[j].Seen? && reference - h[j].at <= staleAfter;
      assert j == k;
    }
  }

  /** A camera nothing is known of since its removal, or at all, is in a group only as the current one. */
  lemma UnseenIsOutside(group: seq<string>, active: set<string>, h: seq<Sighting>, reference: int,
                        current: Option<string>, staleAfter: int, c: string)
    requires SeenLately(group, active, h, reference, current, staleAfter) && current != Some(c)
    requires forall k :: LastWord(h, k, c) ==> h[k].Removed?
    ensures c !in group
  {
  }

  /** The group's members: nobody healthy leaves the current camera alone in it. */
  function Group(healthy: set<string>, current: Option<string>): set<string> {
    if healthy == {} && current.Some? then {current.value} else healthy
  }

  function Workers(active: map<string, ActiveCamera>): set<nat> {
    set c | c in active :: active[c].worker
  }

  ghost predicate OneWorkerEach(active: map<string, ActiveCamera>) {
    forall c, d :: c in active && d in active && c != d ==> active[c].worker != active[d].worker
  }

  /** Cameras a refresh leaves alone: their source is still the wanted one. */
  function Unchanged(active: map<string, ActiveCamera>, targets: map<string, string>): map<string, ActiveCamera> {
    map c | c in active && c in targets && active[c].source == targets[c] :: active[c]
  }

  /** A refresh on its way: the cameras in `todo` have not been looked at. */
  function LookedAt(active: map<string, ActiveCamera>, targets: map<string, string>,
                    todo: set<string>): map<string, ActiveCamera> {
    map c | c in active && (c in todo || c in Unchanged(active, targets)) :: active[c]
  }

  lemma LookAt(active: map<string, ActiveCamera>, targets: map<string, string>, todo: set<string>, c: string)
    requires c in active && c in todo
    ensures var now := LookedAt(active, targets, todo);
            && c in now && now[c] == active[c]
            && LookedAt(active, targets, todo - {c})
                 == if c in targets && active[c].source == targets[c] then now else now - {c}
  {
  }

  lemma UnchangedIsWanted(active: map<string, ActiveCamera>, targets: map<string, string>)
    ensures Unchanged(active, targets).Keys <= targets.Keys
  {
  }

  lemma LookStartsAndEnds(active: map<string, ActiveCamera>, targets: map<string, string>)
    ensures LookedAt(active, targets, active.Keys) == active
      && LookedAt(active, targets, {}) == Unchanged(active, targets)
  {
  }

  /** A worker for every camera in `targets` that has none. */
  ghost predicate Completed(active: map<string, ActiveCamera>, before: map<string, ActiveCamera>,
                            targets: map<string, string>, firstWorker: nat) {
    && active.Keys == before.Keys + targets.Keys
    && (forall c :: c in before ==> active[c] == before[c])
    && (forall c :: c in active && c !in before ==> active[c].source == targets[c] && firstWorker <= active[c].worker)
  }

  lemma TopologyChanged(active: map<string, ActiveCamera>, before: map<string, ActiveCamera>,
                        targets: map<string, string>, firstWorker: nat)
    requires Completed(active, Unchanged(before, targets), targets, firstWorker)
    ensures active != before <==> Unchanged(before, targets) != before || active != Unchanged(before, targets)
    ensures Sources(active) == targets && active.Keys == targets.Keys
  {
  }

  /** The cameras after a refresh, by the records alone: those that have a record, each with the source
      of its last one; a camera that was there keeps its worker exactly if its source is the same. */
  ghost predicate ListedOnly(active: map<string, ActiveCamera>, before: map<string, ActiveCamera>,
                             records: seq<CameraRecord>) {
    && (forall c :: c in active <==> exists i :: 0 <= i < |records| && records[i].id == c)
    && (forall i :: Counts(records, i) ==>
         records[i].id in active && active[records[i].id].source == records[i].source)
    && (forall c :: c in active && c in before ==>
         (active[c].worker == before[c].worker <==> active[c].source == before[c].source))
  }

  lemma RefreshFollows(active: map<string, ActiveCamera>, before: map<string, ActiveCamera>, records: seq<CameraRecord>,
                       firstWorker: nat)
    requires Completed(active, Unchanged(before, Targets(records)), Targets(records), firstWorker)
    requires Sources(active) == Targets(records) && forall c :: c in before ==> before[c].worker < firstWorker
    ensures ListedOnly(active, before, records)
  {
    hide ById;
    forall c ensures c in active <==> exists i :: 0 <= i < |records| && records[i].id == c {
      ByIdHas(records, c);
      assert c in active <==> c in Sources(active);
    }
    forall i | Counts(records, i)
      ensures records[i].id in active && active[records[i].id].source == records[i].source {
      ByIdIsTheLast(records, i);
      assert records[i].id in Targets(records) && records[i].id in Sources(active);
    }
    forall c | c in active && c in before
      ensures active[c].worker == before[c].worker <==> active[c].source == before[c].source {
      assert c in Sources(active);
    }
  }

  lemma WorkersWith(active: map<string, ActiveCamera>, camera: string, entry: ActiveCamera)
    requires OneWorkerEach(active) && camera !in active && entry.worker !in Workers(active)
    ensures OneWorkerEach(active[camera := entry])
      && Workers(active[camera := entry]) == Workers(active) + {entry.worker}
  {
    var grown := active[camera := entry];
    forall w | w in Workers(active) ensures w in Workers(grown) {
      var c :| c in active && active[c].worker == w;
      assert grown[c].worker == w;
    }
    assert grown[camera].worker == entry.worker;
    forall c | c in active ensures active[c].worker != entry.worker {
      assert active[c].worker in Workers(active);
    }
  }

  lemma WorkersWithout(active: map<string, ActiveCamera>, camera: string)
    requires OneWorkerEach(active) && camera in active
    ensures OneWorkerEach(active - {camera}) && Workers(active - {camera}) == Workers(active) - {active[camera].worker}
  {
    var rest := active - {camera};
    forall w | w in Workers(active) && w != active[camera].worker ensures w in Workers(rest) {
      var c :| c in active && active[c].worker == w;
      assert c in rest;
    }
  }

  lemma SortedSingle(id: string)
    ensures Sorted([id]) && SetOf([id]) == {id}
  {
  }

  class OpenCvPipelineRuntime {
    const toleranceMs: real
    const staleAfter: int
    const table: ControlTable
    ghost const pool: SharedMemoryFrameStore?
    var active: map<string, ActiveCamera>
    var lastSeen: map<string, int>
    var syncIds: seq<string>
    var synchronizer: MultiCameraSynchronizer
    var nextWorker: nat
    /** Workers started and not stopped. */
    ghost var capturing: set<nat>
    /** All that was learned of cameras. */
    ghost var sightings: seq<Sighting>
    /** The frames submitted to the present group, since it was formed. */
    ghost var submitted: seq<BoundedQueue.FrameInfo>

    function Tolerance(): real {
      if toleranceMs < 0.0 then 0.0 else toleranceMs
    }

    /** The group's state is what its history makes of a new synchronizer. */
    ghost predicate FollowsHistory()
      reads this`syncIds, this`submitted, this`synchronizer, synchronizer
    {
      synchronizer.View() == Run(syncIds, Tolerance(), submitted).0
    }

    ghost predicate SyncValid()
      reads this`syncIds, this`synchronizer, synchronizer, synchronizer.Held(), if pool == null then {} else {pool}
    {
      && synchronizer.pool == pool && synchronizer.Valid()
      && Sorted(syncIds)
      && synchronizer.latest.Keys <= SetOf(syncIds)
    }

    ghost predicate CamerasValid()
      reads this`active, this`lastSeen, this`sightings, this`nextWorker, this`capturing, table, table.manager
    {
      && lastSeen.Keys <= active.Keys && TimesAgree(lastSeen, sightings)
      && OneWorkerEach(active) && capturing == Workers(active)
      && (forall c :: c in active ==> active[c].worker < nextWorker)
      && table.Valid()
      && table.controls.Keys <= active.Keys
    }

    /** Between loop iterations the synchronizer's group is the recorded one, sorted, of active
        cameras, it holds packets of the group only, and its state follows the group's history. */
    ghost predicate Valid()
      reads this, synchronizer, synchronizer.Held(), table, table.manager, if pool == null then {} else {pool}
    {
      && SyncValid() && CamerasValid()
      && synchronizer.cameraIds == syncIds && FollowsHistory()
      && SetOf(syncIds) <= active.Keys
    }

    /** Slots in use by packets the synchronizer does not hold. */
    ghost function OtherSlots(): set<nat>
      reads this`synchronizer, synchronizer, if pool == null then {} else {pool}
    {
      if pool == null then {} else pool.inUse - synchronizer.HeldSlots()
    }

    constructor (toleranceMs: real, staleAfter: int, table: ControlTable, ghost pool: SharedMemoryFrameStore?)
      requires table.Valid() && table.controls == map[]
      requires pool != null ==> pool.Valid()
      ensures Valid() && active == map[] && syncIds == [] && submitted == [] && sightings == []
      ensures fresh(synchronizer)
    {
      this.toleranceMs, this.staleAfter, this.table, this.pool := toleranceMs, staleAfter, table, pool;
      active, lastSeen, syncIds, nextWorker, capturing, submitted := map[], map[], [], 0, {}, [];
      sightings := [];
      synchronizer := new MultiCameraSynchronizer([], toleranceMs, pool);
    }

    /** `_refresh_sync_group`. A changed group gets a new synchronizer and everything the old one
        held is released; an unchanged group keeps its synchronizer as it is. */
    method RefreshSyncGroup(reference: int, current: Option<string>)
      requires SyncValid()
      requires (synchronizer.cameraIds == syncIds && FollowsHistory())
        || SetOf(syncIds) != Group(Healthy(active.Keys, lastSeen, reference, current, staleAfter), current)
      modifies this`syncIds, this`submitted, this`synchronizer
      modifies synchronizer, synchronizer.Held(), if pool == null then {} else {pool}
      ensures SyncValid() && synchronizer.cameraIds == syncIds && FollowsHistory()
      ensures submitted == if syncIds == old(syncIds) then old(submitted) else []
      ensures SetOf(syncIds) == Group(Healthy(active.Keys, lastSeen, reference, current, staleAfter), current)
      ensures current.Some? ==> syncIds != []
      ensures syncIds == old(syncIds) ==>
        && synchronizer == old(synchronizer) && synchronizer.View() == old(synchronizer.View())
        && synchronizer.latest == old(synchronizer.latest)
      ensures syncIds != old(syncIds) ==>
        && fresh(synchronizer) && synchronizer.View() == SyncState(syncIds, Tolerance(), map[], 0)
        && synchronizer.latest == map[]
        && (forall p :: p in old(synchronizer.Held()) ==> p.released)
      ensures pool != null ==>
        && pool.blocks == old(pool.blocks)
        && pool.inUse == old(pool.inUse) -
             (if syncIds == old(syncIds) then {} else old(synchronizer.HeldSlots()))
      ensures OtherSlots() == old(OtherSlots())
      ensures synchronizer.Held() <= old(synchronizer.Held())
    {
      hide Slots.Valid, Sorted, Healthy, Group, Run, MultiCameraSynchronizer.Valid;
      var ids := Members(reference, current);
      assert current.Some? ==> ids != [];
      if ids != syncIds {
        Form(ids);
      }
    }

    /** Who belongs in the group, sorted. */
    method Members(reference: int, current: Option<string>) returns (ids: seq<string>)
      ensures Sorted(ids)
      ensures SetOf(ids) == Group(Healthy(active.Keys, lastSeen, reference, current, staleAfter), current)
      ensures current.Some? ==> ids != []
    {
      ids := Sort(Healthy(active.Keys, lastSeen, reference, current, staleAfter));
      SetOfIsEmpty(ids);
      if ids == [] && current.Some? {
        ids := [current.value];
        SortedSingle(current.value);
      }
    }

    /** The old group is closed, and a new one starts with nothing. */
    method Form(ids: seq<string>)
      requires SyncValid() && Sorted(ids)
      modifies this`syncIds, this`submitted, this`synchronizer
      modifies synchronizer, synchronizer.Held(), if pool == null then {} else {pool}
      ensures SyncValid() && synchronizer.cameraIds == syncIds && FollowsHistory()
      ensures syncIds == ids && submitted == []
      ensures fresh(synchronizer) && synchronizer.View() == SyncState(ids, Tolerance(), map[], 0)
      ensures synchronizer.latest == map[]
      ensures forall p :: p in old(synchronizer.Held()) ==> p.released
      ensures pool != null ==>
        && pool.blocks == old(pool.blocks)
        && pool.inUse == old(pool.inUse) - old(synchronizer.HeldSlots())
      ensures OtherSlots() == old(OtherSlots()) && synchronizer.Held() == {}
    {
      hide Slots.Valid, Sorted, MultiCameraSynchronizer.Good, OneSlotEach;
      synchronizer.Close();
      syncIds, submitted := ids, [];
      synchronizer := new MultiCameraSynchronizer(ids, toleranceMs, pool);
    }

    /** The group is the one that was due at a time. */
    ghost predicate GroupSeenLately(reference: int, current: Option<string>)
      reads this`syncIds, this`active, this`sightings
    {
      SeenLately(syncIds, active.Keys, sightings, reference, current, staleAfter)
    }

    lemma GroupWasSeenLately(reference: int, current: Option<string>)
      requires CamerasValid()
      requires SetOf(syncIds) == Group(Healthy(active.Keys, lastSeen, reference, current, staleAfter), current)
      ensures GroupSeenLately(reference, current)
    {
      hide OneWorkerEach, Workers, ControlTable.Valid, TimesAgree, SeenLately;
      HealthyWereSeenLately(syncIds, active.Keys, lastSeen, sightings, reference, current, staleAfter);
    }

    /** A packet as the frame buffer hands it over: unreleased, not held, in a slot of its own. */
    ghost predicate InHand(packet: FramePacket)
      reads this, synchronizer, packet, if pool == null then {} else {pool}
    {
      && packet !in synchronizer.Held()
      && packet.store == pool && !packet.released
      && (pool != null ==>
           && packet.slot in pool.inUse && packet.slot in pool.blocks && pool.blocks[packet.slot] == packet.info.frame
           && (forall c :: c in synchronizer.latest ==> synchronizer.latest[c].packet.slot != packet.slot))
    }

    /** A bundle, if there is one, has one unreleased packet from each camera of the group, and the
        cameras are distinct and active. */
    ghost predicate IsLive(bundle: Option<Bundle>)
      reads this`syncIds, this`active
      reads if bundle.Some? then bundle.value.packets else []
    {
      bundle.Some? ==>
        && |bundle.value.packets| == |syncIds| && NoDuplicates(syncIds)
        && (forall i :: 0 <= i < |syncIds| ==>
             var p := bundle.value.packets[i];
             p.info.camera == syncIds[i] && syncIds[i] in active && !p.released)
    }

    ghost predicate Holds(packet: FramePacket)
      reads this`synchronizer, synchronizer
    {
      packet.info.camera in synchronizer.latest && synchronizer.latest[packet.info.camera].packet == packet
    }

    /** `bundle` is what the last submit returned, by the group's history: of an orderly one it is
        there exactly when all cameras are there and aligned, and has the latest of each. */
    ghost predicate Answers(bundle: Option<Bundle>)
      reads this`syncIds, this`submitted
    {
      submitted != [] &&
      var earlier := Run(syncIds, Tolerance(), submitted[..|submitted| - 1]).1;
      && Run(syncIds, Tolerance(), submitted).1 == earlier + Told(bundle)
      && (Orderly(syncIds, submitted) ==>
           Told(bundle) == if Aligned(syncIds, Tolerance(), submitted)
                           then [BundleInfo(|earlier|, Vector(syncIds, submitted))] else [])
    }

    /** One packet through the loop. From an inactive camera it is released and nothing else
        happens. Otherwise the group is brought up to date and the packet submitted; the group is
        then the sorted healthy cameras, among them the packet's own, so the submit has stamps to
        compare and every packet of a bundle comes from a different active camera. */
    method HandlePacket(packet: FramePacket, capturedAt: int) returns (bundle: Option<Bundle>)
      requires Valid() && InHand(packet)
      modifies this`lastSeen, this`sightings, this`syncIds, this`submitted, this`synchronizer
      modifies packet, synchronizer, synchronizer.Held(), if pool == null then {} else {pool}
      ensures Valid()
      ensures packet.info.camera !in active ==>
        && packet.released && bundle.None?
        && lastSeen == old(lastSeen) && syncIds == old(syncIds) && submitted == old(submitted)
        && sightings == old(sightings)
        && synchronizer == old(synchronizer) && synchronizer.latest == old(synchronizer.latest)
      ensures packet.info.camera in active ==>
        && Holds(packet) && !packet.released
        && submitted == (if syncIds == old(syncIds) then old(submitted) else []) + [packet.info]
        && Answers(bundle)
        && lastSeen == old(lastSeen)[packet.info.camera := capturedAt]
        && packet.info.camera in syncIds
        && sightings == old(sightings) + [Seen(packet.info.camera, capturedAt)]
        && GroupSeenLately(capturedAt, Some(packet.info.camera))
        && SetOf(syncIds) == Healthy(active.Keys, lastSeen, capturedAt, Some(packet.info.camera), staleAfter)
        && synchronizer.View() == AfterSubmit(Joined(old(syncIds), old(synchronizer.View())), packet.info).0
      ensures IsLive(bundle)
      ensures pool != null ==> pool.blocks == old(pool.blocks)
      ensures OtherSlots() == old(OtherSlots()) - {packet.slot}
      ensures synchronizer.Held() <= old(synchronizer.Held()) + {packet}
    {
      hide Valid, SyncValid, CamerasValid, Sorted, AfterSubmit, Healthy, MultiCameraSynchronizer.Takes, SeenLately;
      if packet.info.camera !in active {
        Discard(packet);
        return None;
      }
      Follow(packet, capturedAt);
      bundle := Offer(packet);
    }

    /** The submit, to a group with somebody in it. */
    method Offer(packet: FramePacket) returns (bundle: Option<Bundle>)
      requires Valid() && synchronizer.Takes(packet) && packet.info.camera in syncIds && NoDuplicates(syncIds)
      modifies this`submitted, synchronizer, synchronizer.Replaced(packet), if pool == null then {} else {pool}
      ensures Valid() && Holds(packet) && !packet.released
      ensures submitted == old(submitted) + [packet.info] && Answers(bundle)
      ensures synchronizer.View() == AfterSubmit(old(synchronizer.View()), packet.info).0
      ensures IsLive(bundle)
      ensures pool != null ==> pool.blocks == old(pool.blocks)
      ensures OtherSlots() == old(OtherSlots()) - {packet.slot}
      ensures synchronizer.Held() <= old(synchronizer.Held()) + {packet}
    {
      hide SyncValid, CamerasValid, AfterSubmit, MultiCameraSynchronizer.View, MultiCameraSynchronizer.Takes,
        OtherSlots, Told, Run, Orderly, Aligned, Holds, PacketsIn;
      ghost var history := submitted;
      bundle := Put(packet);
      submitted := history + [packet.info];
      RunOnce(syncIds, Tolerance(), history, packet.info);
      assert submitted[..|submitted| - 1] == history;
    }

    method Put(packet: FramePacket) returns (bundle: Option<Bundle>)
      requires SyncValid() && synchronizer.Takes(packet)
      requires synchronizer.cameraIds == syncIds && packet.info.camera in syncIds && NoDuplicates(syncIds)
      modifies synchronizer, synchronizer.Replaced(packet), if pool == null then {} else {pool}
      ensures SyncValid() && synchronizer.cameraIds == syncIds && Holds(packet) && !packet.released
      ensures synchronizer.View() == AfterSubmit(old(synchronizer.View()), packet.info).0
      ensures Told(bundle) == Answer(AfterSubmit(old(synchronizer.View()), packet.info).1)
      ensures bundle.Some? ==>
        && |bundle.value.packets| == |syncIds|
        && (forall i :: 0 <= i < |syncIds| ==>
             var p := bundle.value.packets[i];
             p.info.camera == syncIds[i] && !p.released)
      ensures pool != null ==> pool.blocks == old(pool.blocks)
      ensures OtherSlots() == old(OtherSlots()) - {packet.slot}
      ensures synchronizer.Held() <= old(synchronizer.Held()) + {packet}
    {
      hide Slots.Valid, Sorted, AfterSubmit, OneSlotEach, MultiCameraSynchronizer.Valid, MultiCameraSynchronizer.View,
        MultiCameraSynchronizer.Takes, MultiCameraSynchronizer.Good, SlotsIn, PacketsIn, Infos;
      ghost var before, freed := synchronizer.latest, synchronizer.ReplacedSlots(packet);
      bundle := synchronizer.Submit(packet);
      synchronizer.HeldIsUnreleased(packet.info.camera);
      if pool != null {
        SlotsAfterSubmit(old(pool.inUse), before, synchronizer.latest, packet, freed);
      }
      PacketsAfterSubmit(before, synchronizer.latest, packet);
      if bundle.Some? {
        synchronizer.HeldAreGood(bundle.value.packets);
      }
    }

    method Discard(packet: FramePacket)
      requires Valid() && InHand(packet)
      modifies packet, if pool == null then {} else {pool}
      ensures Valid() && packet.released
      ensures pool != null ==> pool.blocks == old(pool.blocks)
      ensures OtherSlots() == old(OtherSlots()) - {packet.slot}
    {
      hide Slots.Valid, Slots.Release, Sorted, CamerasValid;
      packet.Release();
    }

    /** The camera was seen and the group follows; afterwards the synchronizer can take the packet. */
    method Follow(packet: FramePacket, capturedAt: int)
      requires Valid() && InHand(packet) && packet.info.camera in active
      modifies this`lastSeen, this`sightings, this`syncIds, this`submitted, this`synchronizer
      modifies synchronizer, synchronizer.Held(), if pool == null then {} else {pool}
      ensures Valid() && synchronizer.Takes(packet)
      ensures synchronizer == old(synchronizer) || fresh(synchronizer)
      ensures synchronizer.Held() <= old(synchronizer.Held())
      ensures lastSeen == old(lastSeen)[packet.info.camera := capturedAt]
      ensures packet.info.camera in syncIds && NoDuplicates(syncIds)
      ensures sightings == old(sightings) + [Seen(packet.info.camera, capturedAt)]
      ensures GroupSeenLately(capturedAt, Some(packet.info.camera))
      ensures SetOf(syncIds) == Healthy(active.Keys, lastSeen, capturedAt, Some(packet.info.camera), staleAfter)
      ensures synchronizer.View() == Joined(old(syncIds), old(synchronizer.View()))
      ensures submitted == if syncIds == old(syncIds) then old(submitted) else []
      ensures pool != null ==> pool.blocks == old(pool.blocks)
      ensures OtherSlots() == old(OtherSlots())
    {
      hide SyncValid, CamerasValid, MultiCameraSynchronizer.Takes, Healthy, Sorted, Group, OtherSlots, SeenLately;
      SawCamera(packet.info.camera, capturedAt);
      RefreshSyncGroup(capturedAt, Some(packet.info.camera));
      GroupWasSeenLately(capturedAt, Some(packet.info.camera));
      CurrentIsMember(packet.info.camera, capturedAt);
      StillTakes(packet);
    }

    method SawCamera(camera: string, at: int)
      requires CamerasValid() && camera in active
      modifies this`lastSeen, this`sightings
      ensures CamerasValid() && lastSeen == old(lastSeen)[camera := at]
      ensures sightings == old(sightings) + [Seen(camera, at)]
    {
      hide OneWorkerEach, Workers, ControlTable.Valid, TimesAgree;
      TimesAfterPacket(lastSeen, sightings, camera, at);
      lastSeen, sightings := lastSeen[camera := at], sightings + [Seen(camera, at)];
    }

    lemma CurrentIsMember(camera: string, reference: int)
      requires camera in active && SyncValid()
      requires SetOf(syncIds)
        == Group(Healthy(active.Keys, lastSeen, reference, Some(camera), staleAfter), Some(camera))
      ensures SetOf(syncIds) == Healthy(active.Keys, lastSeen, reference, Some(camera), staleAfter) <= active.Keys
      ensures camera in syncIds && NoDuplicates(syncIds)
    {
      hide MultiCameraSynchronizer.Valid;
      SortedHasNoDuplicates(syncIds);
      assert camera in Healthy(active.Keys, lastSeen, reference, Some(camera), staleAfter);
      assert camera in SetOf(syncIds);
    }

    /** The packet in hand can be taken by a group whose other slots are the same. */
    twostate lemma StillTakes(packet: FramePacket)
      requires old(InHand(packet)) && unchanged(packet) && SyncValid()
      requires OtherSlots() == old(OtherSlots())
      requires pool != null ==> pool.blocks == old(pool.blocks)
      ensures synchronizer.Takes(packet)
    {
      hide MultiCameraSynchronizer.Valid, Sorted;
      if pool != null {
        assert packet.slot in OtherSlots();
      }
    }

    /** The group's state when a packet is submitted: a changed group starts anew. */
    ghost function Joined(before: seq<string>, state: SyncState): SyncState
      reads this
    {
      if syncIds == before then state
      else SyncState(syncIds, Tolerance(), map[], 0)
    }

    /** What the group may become when cameras go: it stays as it was, or it is a new one. */
    twostate predicate GroupShrinks()
      reads this, synchronizer
    {
      && (synchronizer == old(synchronizer) || fresh(synchronizer))
      && synchronizer.Held() <= old(synchronizer.Held())
      && (synchronizer == old(synchronizer) ==> syncIds == old(syncIds) && submitted == old(submitted))
      && (synchronizer != old(synchronizer) ==> submitted == [])
    }

    /** `_remove_camera`: everything kept for the camera goes, its worker stops, the group follows;
        no other camera's entry changes. */
    method RemoveCamera(camera: string, now: int)
      requires Valid()
      modifies this`active, this`lastSeen, this`sightings, this`capturing
      modifies this`syncIds, this`submitted, this`synchronizer
      modifies synchronizer, synchronizer.Held(), table, table.manager, if pool == null then {} else {pool}
      ensures Valid() && GroupShrinks()
      ensures active == old(active) - {camera}
      ensures pool != null ==> pool.blocks == old(pool.blocks)
      ensures OtherSlots() == old(OtherSlots())
      ensures camera in old(active) ==>
        && lastSeen == old(lastSeen) - {camera}
        && table.controls == old(table.controls) - {camera}
        && table.manager.orchestrators == old(table.manager.orchestrators) - {camera}
        && camera !in synchronizer.cameraIds && camera !in synchronizer.latest
        && (forall p :: p in old(synchronizer.Held()) && p.info.camera == camera ==> p.released)
        && sightings == old(sightings) + [Removed(camera)] && GroupSeenLately(now, None)
        && SetOf(syncIds) == Healthy(active.Keys, lastSeen, now, None, staleAfter)
      ensures camera !in old(active) ==>
        && lastSeen == old(lastSeen) && table.controls == old(table.controls)
        && table.manager.orchestrators == old(table.manager.orchestrators)
        && synchronizer == old(synchronizer) && syncIds == old(syncIds)
    {
      hide SyncValid, CamerasValid, Healthy, SeenLately;
      if camera !in active {
        return;
      }
      Forget(camera);
      LeaveGroup(camera, now);
      GroupWasSeenLately(now, None);
    }

    method Forget(camera: string)
      requires CamerasValid() && camera in active
      modifies this`active, this`lastSeen, this`sightings, this`capturing, table, table.manager
      ensures CamerasValid() && sightings == old(sightings) + [Removed(camera)]
      ensures active == old(active) - {camera} && lastSeen == old(lastSeen) - {camera}
      ensures table.controls == old(table.controls) - {camera}
      ensures table.manager.orchestrators == old(table.manager.orchestrators) - {camera}
    {
      hide OneWorkerEach, Workers, TimesAgree;
      WorkersWithout(active, camera);
      TimesAfterRemoval(lastSeen, sightings, camera);
      sightings := sightings + [Removed(camera)];
      capturing := capturing - {active[camera].worker};
      active, lastSeen := active - {camera}, lastSeen - {camera};
      table.RemoveCamera(camera);
    }

    method LeaveGroup(camera: string, now: int)
      requires SyncValid() && camera !in active && synchronizer.cameraIds == syncIds && FollowsHistory()
      requires SetOf(syncIds) <= active.Keys + {camera}
      modifies this`syncIds, this`submitted, this`synchronizer
      modifies synchronizer, synchronizer.Held(), if pool == null then {} else {pool}
      ensures SyncValid() && GroupShrinks() && synchronizer.cameraIds == syncIds && FollowsHistory()
      ensures SetOf(syncIds) == Healthy(active.Keys, lastSeen, now, None, staleAfter)
      ensures SetOf(syncIds) <= active.Keys && camera !in synchronizer.latest
      ensures pool != null ==> pool.blocks == old(pool.blocks)
      ensures OtherSlots() == old(OtherSlots())
      ensures forall p :: p in old(synchronizer.Held()) && p.info.camera == camera ==> p.released
    {
      hide SyncValid, OtherSlots, Healthy;
      HealthyAreActive(active.Keys, lastSeen, now, None, staleAfter);
      DropFromGroup(camera);
      if camera !in syncIds {
        FilterIsExact(syncIds, Other(camera));
      } else {
        assert camera in SetOf(syncIds);
      }
      RefreshSyncGroup(now, None);
      NothingHeldOf(camera);
    }

    lemma NothingHeldOf(camera: string)
      requires SyncValid() && camera !in SetOf(syncIds)
      ensures camera !in synchronizer.latest
    {
      hide MultiCameraSynchronizer.Valid, Sorted;
    }

    method DropFromGroup(camera: string)
      requires SyncValid() && synchronizer.cameraIds == syncIds
      modifies synchronizer, synchronizer.Held(), if pool == null then {} else {pool}
      ensures SyncValid()
      ensures synchronizer.cameraIds == Filter(old(synchronizer.cameraIds), Other(camera))
      ensures camera !in syncIds ==> synchronizer.View() == old(synchronizer.View())
      ensures synchronizer.Held() <= old(synchronizer.Held())
      ensures forall p :: p in old(synchronizer.Held()) && p.info.camera == camera ==>
        p.released && p !in synchronizer.Held()
      ensures pool != null ==> pool.blocks == old(pool.blocks)
      ensures OtherSlots() == old(OtherSlots())
    {
      hide Slots.Valid, Sorted, OneSlotEach, SlotsIn, Filter;
      ghost var before := synchronizer.latest;
      FilterIsExact(syncIds, Other(camera));
      synchronizer.RemoveCamera(camera);
      if camera !in syncIds {
        assert before - {camera} == before;
      }
      SlotsAfterRemoval(before, camera);
    }

    ghost predicate NoOrphan()
      reads table, table.manager
    {
      table.manager.orchestrators.Keys == table.controls.Keys
    }

    /** First half of `refresh_cameras`: cameras that are gone, or whose source changed, are removed. */
    method RemoveStale(targets: map<string, string>, clock: string -> int) returns (changed: bool)
      requires Valid()
      modifies this`active, this`lastSeen, this`sightings, this`capturing
      modifies this`syncIds, this`submitted, this`synchronizer
      modifies synchronizer, synchronizer.Held(), table, table.manager, if pool == null then {} else {pool}
      ensures Valid() && GroupShrinks()
      ensures active == Unchanged(old(active), targets)
      ensures changed <==> active != old(active)
      ensures !changed ==> synchronizer == old(synchronizer) && syncIds == old(syncIds)
      ensures table.controls == old(table.controls) - (old(active).Keys - active.Keys)
      ensures table.manager.orchestrators == old(table.manager.orchestrators) - (old(active).Keys - active.Keys)
      ensures old(NoOrphan()) ==> NoOrphan()
      ensures pool != null ==> pool.blocks == old(pool.blocks)
      ensures OtherSlots() == old(OtherSlots())
    {
      hide Valid, Healthy, OtherSlots, LookedAt, Unchanged;
      changed := false;
      var todo := active.Keys;
      LookStartsAndEnds(active, targets);
      while todo != {}
        invariant pool != null ==> pool.blocks == old(pool.blocks)
        invariant OtherSlots() == old(OtherSlots())
        invariant Valid() && GroupShrinks() && todo <= old(active).Keys
        invariant active == LookedAt(old(active), targets, todo) && active.Keys <= old(active).Keys
        invariant changed <==> active != old(active)
        invariant !changed ==> synchronizer == old(synchronizer) && syncIds == old(syncIds)
        invariant table.controls == old(table.controls) - (old(active).Keys - active.Keys)
        invariant table.manager.orchestrators == old(table.manager.orchestrators) - (old(active).Keys - active.Keys)
        decreases todo
      {
        var c :| c in todo;
        LookAt(old(active), targets, todo, c);
        todo := todo - {c};
        if c in targets && active[c].source == targets[c] {
          continue;
        }
        changed := true;
        assert old(active).Keys - (active.Keys - {c}) == (old(active).Keys - active.Keys) + {c};
        RemoveCamera(c, clock(c));
      }
    }

    method StartWorker(camera: string, source: string)
      requires CamerasValid() && camera !in active
      modifies this`active, this`nextWorker, this`capturing
      ensures CamerasValid()
      ensures active == old(active)[camera := ActiveCamera(source, old(nextWorker))]
      ensures nextWorker == old(nextWorker) + 1
    {
      hide OneWorkerEach, ControlTable.Valid;
      assert nextWorker !in Workers(active);
      WorkersWith(active, camera, ActiveCamera(source, nextWorker));
      active := active[camera := ActiveCamera(source, nextWorker)];
      capturing := capturing + {nextWorker};
      nextWorker := nextWorker + 1;
    }

    /** Second half: a new worker for every wanted camera without one. */
    method StartMissing(targets: map<string, string>) returns (changed: bool)
      requires CamerasValid()
      modifies this`active, this`nextWorker, this`capturing
      ensures CamerasValid() && Completed(active, old(active), targets, old(nextWorker))
      ensures old(active).Keys <= active.Keys
      ensures changed <==> active != old(active)
    {
      hide CamerasValid;
      changed := false;
      var todo := targets.Keys;
      while todo != {}
        invariant todo <= targets.Keys && old(nextWorker) <= nextWorker
        invariant CamerasValid()
        invariant active.Keys == old(active).Keys + (targets.Keys - todo)
        invariant forall c :: c in old(active) ==> active[c] == old(active)[c]
        invariant forall c :: c in active && c !in old(active) ==>
          active[c].source == targets[c] && old(nextWorker) <= active[c].worker
        invariant changed <==> active != old(active)
        decreases todo
      {
        var c :| c in todo;
        todo := todo - {c};
        if c !in active {
          changed := true;
          StartWorker(c, targets[c]);
        }
      }
    }

    method SyncControls(records: seq<CameraRecord>)
      requires CamerasValid()
      modifies table, table.manager
      ensures CamerasValid()
      ensures table.behaviorInference ==>
        table.controls == WantedControls(ById(records), active.Keys, table.defaultStrategy)
      ensures table.behaviorInference ==>
        table.manager.orchestrators == RunningAfter(ById(records), active.Keys, table.defaultStrategy,
                                                    old(table.controls), old(table.manager.orchestrators))
      ensures !table.behaviorInference ==>
        && table.controls == map[]
        && table.manager.orchestrators == old(table.manager.orchestrators) - old(table.controls).Keys
      ensures old(NoOrphan()) && active.Keys <= ById(records).Keys ==> NoOrphan()
    {
      hide StrategyOf, EnabledOf, ById, OneWorkerEach, Workers;
      if table.behaviorInference && NoOrphan() {
        SyncLeavesNoOrphanIff(ById(records), active.Keys, table.defaultStrategy, table.controls,
          table.manager.orchestrators);
      }
      table.Sync(records, active.Keys);
    }

    /** `sync_inference_controls`, between refreshes: the group and the cameras are left alone. */
    method SyncInferenceControls(records: seq<CameraRecord>)
      requires Valid()
      modifies table, table.manager
      ensures Valid()
      ensures active == map[] ==>
        table.controls == old(table.controls) && table.manager.orchestrators == old(table.manager.orchestrators)
      ensures active != map[] && table.behaviorInference ==>
        && table.controls == WantedControls(ById(records), active.Keys, table.defaultStrategy)
        && table.manager.orchestrators == RunningAfter(ById(records), active.Keys, table.defaultStrategy,
                                                       old(table.controls), old(table.manager.orchestrators))
      ensures active != map[] && !table.behaviorInference ==>
        && table.controls == map[]
        && table.manager.orchestrators == old(table.manager.orchestrators) - old(table.controls).Keys
    {
      hide CamerasValid, WantedControls, RunningAfter, Sorted, OneSlotEach, Slots.Valid, MultiCameraSynchronizer.Good;
      if active != map[] {
        SyncControls(records);
      }
    }

    /** What runs after a sync with these records, from what was in the table and ran before it. */
    ghost function Remaining(records: seq<CameraRecord>, controls: map<string, (bool, string)>,
                             running: map<string, string>)
      : map<string, string>
      reads this`active
    {
      if table.behaviorInference then RunningAfter(ById(records), active.Keys, table.defaultStrategy, controls, running)
      else running - controls.Keys
    }

    /** `refresh_cameras`: the active cameras become exactly the listed ones with their sources; a
        camera whose source did not change keeps its worker, every other gets a new one; the
        control table is what the records ask for, and nothing runs outside it that did not
        before; the group is rebuilt if the topology changed. */
    method RefreshCameras(records: seq<CameraRecord>, clock: string -> int, now: int)
      requires Valid()
      modifies this`active, this`lastSeen, this`sightings, this`capturing, this`nextWorker
      modifies this`syncIds, this`submitted, this`synchronizer
      modifies synchronizer, synchronizer.Held(), table, table.manager, if pool == null then {} else {pool}
      ensures Valid() && GroupShrinks()
      ensures synchronizer == old(synchronizer) ==> SetOf(syncIds) <= Unchanged(old(active), Targets(records)).Keys
      ensures Sources(active) == Targets(records)
      ensures Completed(active, Unchanged(old(active), Targets(records)), Targets(records), old(nextWorker))
      ensures ListedOnly(active, old(active), records)
      ensures table.behaviorInference ==>
        table.controls == WantedControls(ById(records), active.Keys, table.defaultStrategy)
      ensures !table.behaviorInference ==> table.controls == map[]
      ensures table.manager.orchestrators ==
        var gone := old(active).Keys - Unchanged(old(active), Targets(records)).Keys;
        Remaining(records, old(table.controls) - gone, old(table.manager.orchestrators) - gone)
      ensures old(NoOrphan()) ==> NoOrphan()
      ensures pool != null ==> pool.blocks == old(pool.blocks)
      ensures OtherSlots() == old(OtherSlots())
      ensures active == old(active) ==> synchronizer == old(synchronizer) && syncIds == old(syncIds)
      ensures active != old(active) ==>
        GroupSeenLately(now, None) && SetOf(syncIds) == Healthy(active.Keys, lastSeen, now, None, staleAfter)
    {
      hide Valid, SyncValid, CamerasValid, NoOrphan, ById, Targets, Completed, ListedOnly, Unchanged, Sources,
        WantedControls,
        Healthy, OtherSlots, Remaining;
      var changed := Reconcile(records, clock);
      if changed {
        Regroup(now);
      }
    }

    /** The part of `refresh_cameras` behind the removals. */
    method StartAndSync(records: seq<CameraRecord>, targets: map<string, string>) returns (started: bool)
      requires CamerasValid() && targets == Targets(records) && active.Keys <= targets.Keys
      modifies this`active, this`capturing, this`nextWorker, table, table.manager
      ensures CamerasValid() && old(active).Keys <= active.Keys
      ensures Completed(active, old(active), targets, old(nextWorker))
      ensures started <==> active != old(active)
      ensures table.behaviorInference ==>
        table.controls == WantedControls(ById(records), active.Keys, table.defaultStrategy)
      ensures !table.behaviorInference ==> table.controls == map[]
      ensures table.manager.orchestrators == Remaining(records, old(table.controls), old(table.manager.orchestrators))
      ensures old(NoOrphan()) ==> NoOrphan()
    {
      hide CamerasValid, ById, WantedControls, RunningAfter;
      started := StartMissing(targets);
      SyncControls(records);
    }

    lemma WorkersAreOlder()
      requires CamerasValid()
      ensures forall c :: c in active ==> active[c].worker < nextWorker
    {
    }

    /** All of `refresh_cameras` before the group is looked at. */
    method Reconcile(records: seq<CameraRecord>, clock: string -> int) returns (changed: bool)
      requires Valid()
      modifies this`active, this`lastSeen, this`sightings, this`capturing, this`nextWorker
      modifies this`syncIds, this`submitted, this`synchronizer
      modifies synchronizer, synchronizer.Held(), table, table.manager, if pool == null then {} else {pool}
      ensures Valid() && GroupShrinks()
      ensures synchronizer == old(synchronizer) ==> SetOf(syncIds) <= Unchanged(old(active), Targets(records)).Keys
      ensures Sources(active) == Targets(records)
      ensures Completed(active, Unchanged(old(active), Targets(records)), Targets(records), old(nextWorker))
      ensures ListedOnly(active, old(active), records)
      ensures table.behaviorInference ==>
        table.controls == WantedControls(ById(records), active.Keys, table.defaultStrategy)
      ensures !table.behaviorInference ==> table.controls == map[]
      ensures table.manager.orchestrators ==
        var gone := old(active).Keys - Unchanged(old(active), Targets(records)).Keys;
        Remaining(records, old(table.controls) - gone, old(table.manager.orchestrators) - gone)
      ensures old(NoOrphan()) ==> NoOrphan()
      ensures pool != null ==> pool.blocks == old(pool.blocks)
      ensures OtherSlots() == old(OtherSlots())
      ensures changed <==> active != old(active)
      ensures !changed ==> synchronizer == old(synchronizer) && syncIds == old(syncIds)
    {
      hide FollowsHistory, SyncValid, CamerasValid, NoOrphan, ById, Targets, Completed, ListedOnly, Unchanged, Sources,
        WantedControls, OtherSlots,
        Remaining;
      var targets := Targets(records);
      WorkersAreOlder();
      UnchangedIsWanted(active, targets);
      var removed := RemoveStale(targets, clock);
      var started := StartAndSync(records, targets);
      TopologyChanged(active, old(active), targets, old(nextWorker));
      RefreshFollows(active, old(active), records, old(nextWorker));
      changed := removed || started;
    }

    method Regroup(now: int)
      requires Valid()
      modifies this`syncIds, this`submitted, this`synchronizer
      modifies synchronizer, synchronizer.Held(), if pool == null then {} else {pool}
      ensures Valid() && GroupShrinks()
      ensures GroupSeenLately(now, None) && SetOf(syncIds) == Healthy(active.Keys, lastSeen, now, None, staleAfter)
      ensures pool != null ==> pool.blocks == old(pool.blocks)
      ensures OtherSlots() == old(OtherSlots())
    {
      hide CamerasValid, SyncValid, OtherSlots, SeenLately;
      RefreshSyncGroup(now, None);
      GroupWasSeenLately(now, None);
    }
  }
}
