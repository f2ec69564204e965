/** The synchronizer: the latest packet of each camera, and bundles of packets close in time. */
module Synchronizer {
  import opened Collections
  import opened SlotPool
  import opened BoundedQueue
  import opened FrameBuffers

  // ---------------------------------------------------------------- one submit, on values

  datatype Clock = Clock(info: FrameInfo, emittedSequence: int)

  datatype SyncState = SyncState(cameraIds: seq<string>, toleranceMs: real, latest: map<string, Clock>, bundleId: nat)

  datatype BundleInfo = BundleInfo(bundleId: nat, packets: seq<FrameInfo>)

  /** Any two packets are at most the tolerance apart. */
  predicate Within(packets: seq<FrameInfo>, toleranceMs: real) {
    forall i, j :: 0 <= i < |packets| && 0 <= j < |packets| ==>
      (packets[i].monotonicNs - packets[j].monotonicNs) as real / 1000000.0 <= toleranceMs
  }

  function Stored(s: SyncState, p: FrameInfo): SyncState {
    var emitted := if p.camera in s.latest then s.latest[p.camera].emittedSequence else -1;
    s.(latest := s.latest[p.camera := Clock(p, emitted)])
  }

  predicate HasAll(s: SyncState) {
    forall c :: c in s.cameraIds ==> c in s.latest
  }

  function Packets(s: SyncState): seq<FrameInfo>
    requires HasAll(s)
  {
    seq(|s.cameraIds|, i requires 0 <= i < |s.cameraIds| => s.latest[s.cameraIds[i]].info)
  }

  /** Every camera's latest packet was already in a bundle. */
  predicate NothingNew(s: SyncState)
    requires HasAll(s)
  {
    forall c :: c in s.cameraIds ==> s.latest[c].emittedSequence == s.latest[c].info.sequence
  }

  predicate Emits(s: SyncState) {
    HasAll(s) && Within(Packets(s), s.toleranceMs) && !NothingNew(s)
  }

  function Emitted(s: SyncState): SyncState
    requires HasAll(s)
  {
    s.(bundleId := s.bundleId + 1,
       latest := map c | c in s.latest ::
         if c in s.cameraIds then Clock(s.latest[c].info, s.latest[c].info.sequence) else s.latest[c])
  }

  function AfterSubmit(s: SyncState, p: FrameInfo): (SyncState, Option<BundleInfo>) {
    var stored := Stored(s, p);
    if Emits(stored) then (Emitted(stored), Some(BundleInfo(stored.bundleId, Packets(stored)))) else (stored, None)
  }

  // ---------------------------------------------------------------- whole runs, by history

  /** The packet of a camera submitted last. */
  function Latest(h: seq<FrameInfo>, c: string): Option<FrameInfo> {
    if h == [] then None
    else if h[|h| - 1].camera == c then Some(h[|h| - 1])
    else Latest(h[..|h| - 1], c)
  }

  /** What capture workers produce for a group: packets of its cameras, with sequence numbers that
      grow strictly per camera. */
  predicate Orderly(ids: seq<string>, h: seq<FrameInfo>) {
    h == [] ||
    var before, p := h[..|h| - 1], h[|h| - 1];
    && Orderly(ids, before)
    && p.camera in ids
    && 0 <= p.sequence
    && (Latest(before, p.camera).Some? ==> Latest(before, p.camera).value.sequence < p.sequence)
  }

  predicate Complete(ids: seq<string>, h: seq<FrameInfo>) {
    forall c :: c in ids ==> Latest(h, c).Some?
  }

  /** The latest packets, in the group's order. */
  function Vector(ids: seq<string>, h: seq<FrameInfo>): seq<FrameInfo>
    requires Complete(ids, h)
  {
    seq(|ids|, i requires 0 <= i < |ids| => Latest(h, ids[i]).value)
  }

  predicate Aligned(ids: seq<string>, toleranceMs: real, h: seq<FrameInfo>) {
    Complete(ids, h) && Within(Vector(ids, h), toleranceMs)
  }

  lemma FewWithin(p: FrameInfo, q: FrameInfo, toleranceMs: real)
    requires 0.0 <= toleranceMs
    ensures Within([p], toleranceMs)
    ensures Within([p, q], toleranceMs)
      <==> -toleranceMs <= (p.monotonicNs - q.monotonicNs) as real / 1000000.0 <= toleranceMs
  {
    var packets := [p, q];
    assert (q.monotonicNs - p.monotonicNs) as real == -((p.monotonicNs - q.monotonicNs) as real);
    assert packets[0] == p && packets[1] == q;
    if Within(packets, toleranceMs) {
      assert (packets[0].monotonicNs - packets[1].monotonicNs) as real / 1000000.0 <= toleranceMs;
      assert (packets[1].monotonicNs - packets[0].monotonicNs) as real / 1000000.0 <= toleranceMs;
    }
  }

  /** One camera alone is aligned as soon as it is there; two are when both are there and neither
      stamp is more than the tolerance, in milliseconds, ahead of the other. */
  lemma FewAreAligned(a: string, b: string, toleranceMs: real, h: seq<FrameInfo>)
    requires 0.0 <= toleranceMs
    ensures Aligned([a], toleranceMs, h) <==> Latest(h, a).Some?
    ensures Aligned([a, b], toleranceMs, h) <==>
      && Latest(h, a).Some? && Latest(h, b).Some?
      && var ahead := (Latest(h, a).value.monotonicNs - Latest(h, b).value.monotonicNs) as real / 1000000.0;
         -toleranceMs <= ahead <= toleranceMs
  {
    hide Latest, Within;
    assert a in [a] && a in [a, b] && b in [a, b];
    if Latest(h, a).Some? {
      assert Vector([a], h) == [Latest(h, a).value];
      FewWithin(Latest(h, a).value, Latest(h, a).value, toleranceMs);
      if Latest(h, b).Some? {
        assert Vector([a, b], h) == [Latest(h, a).value, Latest(h, b).value];
        FewWithin(Latest(h, a).value, Latest(h, b).value, toleranceMs);
      }
    }
  }

  /** The state after submitting a history to a new synchronizer, and the bundles it returned. */
  function Run(ids: seq<string>, toleranceMs: real, h: seq<FrameInfo>): (SyncState, seq<BundleInfo>) {
    if h == [] then (SyncState(ids, toleranceMs, map[], 0), [])
    else
      var (s, bundles) := Run(ids, toleranceMs, h[..|h| - 1]);
      var (s', bundle) := AfterSubmit(s, h[|h| - 1]);
      (s', if bundle.None? then bundles else bundles + [bundle.value])
  }

  /** No camera goes back, and some camera moves on. */
  ghost predicate Later(a: BundleInfo, b: BundleInfo) {
    && |a.packets| == |b.packets|
    && (forall k :: 0 <= k < |a.packets| ==> a.packets[k].sequence <= b.packets[k].sequence)
    && (exists k :: 0 <= k < |a.packets| && a.packets[k].sequence < b.packets[k].sequence)
  }

  /** The state holds what the history says. */
  ghost predicate Follows(s: SyncState, ids: seq<string>, toleranceMs: real, h: seq<FrameInfo>) {
    && s.cameraIds == ids && s.toleranceMs == toleranceMs
    && (forall c :: c in s.latest <==> Latest(h, c).Some?)
    && (forall c :: c in s.latest ==> s.latest[c].info == Latest(h, c).value)
    && (forall c :: c in s.latest ==> s.latest[c].emittedSequence <= s.latest[c].info.sequence)
  }

  /** A bundle that is not ahead of what has been emitted. */
  ghost predicate NotAhead(b: BundleInfo, s: SyncState) {
    && |b.packets| == |s.cameraIds|
    && (forall k :: 0 <= k < |b.packets| ==>
         s.cameraIds[k] in s.latest && b.packets[k].sequence <= s.latest[s.cameraIds[k]].emittedSequence)
  }

  ghost predicate InOrder(s: SyncState, bundles: seq<BundleInfo>) {
    && s.bundleId == |bundles|
    && (forall i :: 0 <= i < |bundles| ==> bundles[i].bundleId == i && NotAhead(bundles[i], s))
    && (forall i, j :: 0 <= i < j < |bundles| ==> Later(bundles[i], bundles[j]))
  }

  lemma LatestAfter(h: seq<FrameInfo>, p: FrameInfo, c: string)
    ensures Latest(h + [p], c) == if p.camera == c then Some(p) else Latest(h, c)
  {
    assert (h + [p])[..|h|] == h;
  }

  lemma {:induction false} RunFollows(ids: seq<string>, toleranceMs: real, h: seq<FrameInfo>)
    requires Orderly(ids, h)
    ensures var (s, bundles) := Run(ids, toleranceMs, h);
            Follows(s, ids, toleranceMs, h) && InOrder(s, bundles)
  {
    if h != [] {
      var before, p := h[..|h| - 1], h[|h| - 1];
      RunFollows(ids, toleranceMs, before);
      assert before + [p] == h;
      var (s, bundles) := Run(ids, toleranceMs, before);
      SubmitFollows(s, bundles, ids, toleranceMs, before, p);
    }
  }

  lemma StoredFollows(s: SyncState, ids: seq<string>, toleranceMs: real, h: seq<FrameInfo>, p: FrameInfo)
    requires Follows(s, ids, toleranceMs, h)
    requires Latest(h, p.camera).Some? ==> Latest(h, p.camera).value.sequence < p.sequence
    requires 0 <= p.sequence
    ensures Follows(Stored(s, p), ids, toleranceMs, h + [p])
    ensures Stored(s, p).latest[p.camera].emittedSequence < p.sequence
  {
    forall c ensures Latest(h + [p], c) == if p.camera == c then Some(p) else Latest(h, c) {
      LatestAfter(h, p, c);
    }
  }

  lemma EmittedFollows(s: SyncState, ids: seq<string>, toleranceMs: real, h: seq<FrameInfo>)
    requires Follows(s, ids, toleranceMs, h) && HasAll(s)
    ensures Follows(Emitted(s), ids, toleranceMs, h)
  {
  }

  /** With something new from camera `c`, the emitted bundle is later than any that is not ahead. */
  lemma EmittedIsLater(s: SyncState, bundles: seq<BundleInfo>, c: string)
    requires InOrder(s, bundles) && HasAll(s)
    requires forall d :: d in s.latest ==> s.latest[d].emittedSequence <= s.latest[d].info.sequence
    requires c in s.cameraIds && s.latest[c].emittedSequence < s.latest[c].info.sequence
    ensures InOrder(Emitted(s), bundles + [BundleInfo(s.bundleId, Packets(s))])
  {
    var next := BundleInfo(s.bundleId, Packets(s));
    forall b | NotAhead(b, s) ensures Later(b, next) && NotAhead(b, Emitted(s)) {
      AheadOf(s, b, c);
    }
    assert NotAhead(next, Emitted(s));
    hide NotAhead, Later, Packets;
  }

  lemma AheadOf(s: SyncState, b: BundleInfo, c: string)
    requires NotAhead(b, s) && HasAll(s)
    requires forall d :: d in s.latest ==> s.latest[d].emittedSequence <= s.latest[d].info.sequence
    requires c in s.cameraIds && s.latest[c].emittedSequence < s.latest[c].info.sequence
    ensures Later(b, BundleInfo(s.bundleId, Packets(s))) && NotAhead(b, Emitted(s))
  {
    var k :| 0 <= k < |s.cameraIds| && s.cameraIds[k] == c;
    assert b.packets[k].sequence < Packets(s)[k].sequence;
  }

  lemma {:induction false} SubmitFollows(s: SyncState, bundles: seq<BundleInfo>, ids: seq<string>, toleranceMs: real,
                                         h: seq<FrameInfo>, p: FrameInfo)
    requires Follows(s, ids, toleranceMs, h) && InOrder(s, bundles)
    requires p.camera in ids && 0 <= p.sequence
    requires Latest(h, p.camera).Some? ==> Latest(h, p.camera).value.sequence < p.sequence
    ensures var (s', bundle) := AfterSubmit(s, p);
            && Follows(s', ids, toleranceMs, h + [p])
            && InOrder(s', if bundle.None? then bundles else bundles + [bundle.value])
            && (bundle.Some? <==> Aligned(ids, toleranceMs, h + [p]))
            && (bundle.Some? ==> bundle.value.packets == Vector(ids, h + [p]))
  {
    var stored := Stored(s, p);
    StoredFollows(s, ids, toleranceMs, h, p);
    assert InOrder(stored, bundles) by {
      forall b | NotAhead(b, s) ensures NotAhead(b, stored) { }
    }
    if HasAll(stored) {
      assert Packets(stored) == Vector(ids, h + [p]);
      EmittedFollows(stored, ids, toleranceMs, h + [p]);
      EmittedIsLater(stored, bundles, p.camera);
    }
    hide InOrder, Stored, Emitted, Latest;
  }

  /** Over any orderly run a submit returns a bundle exactly when every camera of the group has a
      packet and they are all within the tolerance; the bundle is then each camera's latest packet,
      in the group's order, and bundles are numbered one after the other. */
  lemma EmitsExactlyWhenAligned(ids: seq<string>, toleranceMs: real, h: seq<FrameInfo>, p: FrameInfo)
    requires Orderly(ids, h + [p])
    ensures var (s, bundles) := Run(ids, toleranceMs, h);
            var bundle := AfterSubmit(s, p).1;
            && (bundle.Some? <==> Aligned(ids, toleranceMs, h + [p]))
            && (bundle.Some? ==> bundle.value == BundleInfo(|bundles|, Vector(ids, h + [p])))
  {
    assert (h + [p])[..|h|] == h;
    RunFollows(ids, toleranceMs, h);
    var (s, bundles) := Run(ids, toleranceMs, h);
    SubmitFollows(s, bundles, ids, toleranceMs, h, p);
    hide Run, Orderly, Latest;
  }

  function Answer(bundle: Option<BundleInfo>): seq<BundleInfo> {
    if bundle.None? then [] else [bundle.value]
  }

  /** One more submit: what it adds to the run, and what it returns if the run is orderly. */
  lemma RunOnce(ids: seq<string>, toleranceMs: real, h: seq<FrameInfo>, p: FrameInfo)
    ensures var (s, bundles) := Run(ids, toleranceMs, h);
            var (s', bundle) := AfterSubmit(s, p);
            && Run(ids, toleranceMs, h + [p]) == (s', bundles + Answer(bundle))
            && (Orderly(ids, h + [p]) ==>
                 Answer(bundle) == if Aligned(ids, toleranceMs, h + [p])
                                   then [BundleInfo(|bundles|, Vector(ids, h + [p]))] else [])
  {
    hide Aligned, AfterSubmit, Orderly;
    var (s, bundles) := Run(ids, toleranceMs, h);
    assert (h + [p])[..|h|] == h;
    assert bundles + [] == bundles;
    if Orderly(ids, h + [p]) {
      EmitsExactlyWhenAligned(ids, toleranceMs, h, p);
    }
  }

  /** The very frame that completed a bundle, submitted again, gives no other and changes nothing. */
  lemma RepeatGivesNothing(s: SyncState, p: FrameInfo)
    requires AfterSubmit(s, p).1.Some?
    ensures AfterSubmit(AfterSubmit(s, p).0, p) == (AfterSubmit(s, p).0, None)
  {
    var after := AfterSubmit(s, p).0;
    assert after == Emitted(Stored(s, p)) && p.camera in after.latest;
    assert after.latest[p.camera].info == p;
    assert Stored(after, p).latest == after.latest;
    if HasAll(after) {
      assert NothingNew(after);
    }
  }

  /** No bundle repeats: of any two, the later one has no camera behind and one ahead. */
  lemma BundlesAdvance(ids: seq<string>, toleranceMs: real, h: seq<FrameInfo>, i: nat, j: nat)
    requires Orderly(ids, h) && i < j < |Run(ids, toleranceMs, h).1|
    ensures var bundles := Run(ids, toleranceMs, h).1;
            bundles[i].bundleId == i && bundles[j].bundleId == j && Later(bundles[i], bundles[j])
  {
    RunFollows(ids, toleranceMs, h);
  }

  // ---------------------------------------------------------------- the object

  datatype ClockState = ClockState(packet: FramePacket, emittedSequence: int)

  datatype Bundle = Bundle(bundleId: nat, packets: seq<FramePacket>, spanMs: real)

  /** A bundle, if there is one, by its frames. */
  function Told(bundle: Option<Bundle>): seq<BundleInfo> {
    if bundle.None? then [] else [BundleInfo(bundle.value.bundleId, Infos(bundle.value.packets))]
  }

  /** The span is the largest difference of two stamps, in milliseconds. */
  ghost predicate Spans(spanMs: real, packets: seq<FramePacket>) {
    && (forall i, j :: 0 <= i < |packets| && 0 <= j < |packets| ==>
         (packets[i].info.monotonicNs - packets[j].info.monotonicNs) as real / 1000000.0 <= spanMs)
    && (exists i, j :: 0 <= i < |packets| && 0 <= j < |packets|
         && (packets[i].info.monotonicNs - packets[j].info.monotonicNs) as real / 1000000.0 == spanMs)
  }

  /** The newest and the oldest stamp of some packets. */
  method StampRange(packets: seq<FramePacket>) returns (newest: int, oldest: int)
    requires packets != []
    ensures exists i :: 0 <= i < |packets| && newest == packets[i].info.monotonicNs
    ensures exists i :: 0 <= i < |packets| && oldest == packets[i].info.monotonicNs
    ensures forall i :: 0 <= i < |packets| ==> oldest <= packets[i].info.monotonicNs <= newest
  {
    newest, oldest := packets[0].info.monotonicNs, packets[0].info.monotonicNs;
    var k := 1;
    while k < |packets|
      invariant 1 <= k <= |packets|
      invariant exists i :: 0 <= i < k && newest == packets[i].info.monotonicNs
      invariant exists i :: 0 <= i < k && oldest == packets[i].info.monotonicNs
      invariant forall i :: 0 <= i < k ==> oldest <= packets[i].info.monotonicNs <= newest
    {
      var stamp := packets[k].info.monotonicNs;
      if newest < stamp {
        newest := stamp;
      }
      if stamp < oldest {
        oldest := stamp;
      }
      k := k + 1;
    }
  }

  function Other(camera: string): string -> bool {
    (id: string) => id != camera
  }

  lemma SpanDecides(packets: seq<FramePacket>, newest: int, oldest: int, toleranceMs: real)
    requires exists i :: 0 <= i < |packets| && newest == packets[i].info.monotonicNs
    requires exists i :: 0 <= i < |packets| && oldest == packets[i].info.monotonicNs
    requires forall i :: 0 <= i < |packets| ==> oldest <= packets[i].info.monotonicNs <= newest
    ensures Within(Infos(packets), toleranceMs) <==> (newest - oldest) as real / 1000000.0 <= toleranceMs
    ensures Spans((newest - oldest) as real / 1000000.0, packets)
  {
    hide Within;
    SpanDecidesWithin(packets, newest, oldest, toleranceMs);
    var i :| 0 <= i < |packets| && newest == packets[i].info.monotonicNs;
    var j :| 0 <= j < |packets| && oldest == packets[j].info.monotonicNs;
    forall k, l | 0 <= k < |packets| && 0 <= l < |packets|
      ensures packets[k].info.monotonicNs - packets[l].info.monotonicNs <= newest - oldest {
    }
    assert packets[i].info.monotonicNs - packets[j].info.monotonicNs == newest - oldest;
  }

  lemma SpanDecidesWithin(packets: seq<FramePacket>, newest: int, oldest: int, toleranceMs: real)
    requires exists i :: 0 <= i < |packets| && newest == packets[i].info.monotonicNs
    requires exists i :: 0 <= i < |packets| && oldest == packets[i].info.monotonicNs
    requires forall i :: 0 <= i < |packets| ==> oldest <= packets[i].info.monotonicNs <= newest
    ensures Within(Infos(packets), toleranceMs) <==> (newest - oldest) as real / 1000000.0 <= toleranceMs
  {
    var infos := Infos(packets);
    var i :| 0 <= i < |packets| && newest == packets[i].info.monotonicNs;
    var j :| 0 <= j < |packets| && oldest == packets[j].info.monotonicNs;
    assert infos[i].monotonicNs - infos[j].monotonicNs == newest - oldest;
    forall k, l | 0 <= k < |infos| && 0 <= l < |infos|
      ensures infos[k].monotonicNs - infos[l].monotonicNs <= newest - oldest {
      assert infos[k] == packets[k].info && infos[l] == packets[l].info;
    }
  }

  ghost predicate OneSlotEach(states: map<string, ClockState>) {
    forall c, d :: c in states && d in states && c != d ==> states[c].packet.slot != states[d].packet.slot
  }

  ghost function SlotsIn(states: map<string, ClockState>): set<nat> {
    set c | c in states :: states[c].packet.slot
  }

  ghost function PacketsIn(states: map<string, ClockState>): set<FramePacket> {
    set c | c in states :: states[c].packet
  }

  /** The packet is its camera's now, and every other camera has what it had. */
  ghost predicate Replaces(before: map<string, ClockState>, p: FramePacket, after: map<string, ClockState>) {
    && after.Keys == before.Keys + {p.info.camera}
    && after[p.info.camera].packet == p
    && (forall c :: c in before && c != p.info.camera ==> after[c].packet == before[c].packet)
  }

  lemma PacketsAfterSubmit(before: map<string, ClockState>, after: map<string, ClockState>, p: FramePacket)
    requires Replaces(before, p, after)
    ensures PacketsIn(after) <= PacketsIn(before) + {p}
  {
  }

  /** A submit takes the packet's slot over and touches no other slot the group does not hold. */
  lemma SlotsAfterSubmit(inUse: set<nat>, before: map<string, ClockState>, after: map<string, ClockState>,
                         p: FramePacket, freed: set<nat>)
    requires Replaces(before, p, after)
    requires freed == if p.info.camera in before && before[p.info.camera].packet != p
                      then {before[p.info.camera].packet.slot} else {}
    ensures inUse - freed - SlotsIn(after) == inUse - SlotsIn(before) - {p.slot}
  {
    var camera := p.info.camera;
    assert after[camera].packet == p;
    forall k | k in SlotsIn(before) && k !in freed ensures k in SlotsIn(after) {
      var c :| c in before && before[c].packet.slot == k;
      assert after[c].packet.slot == k || c == camera;
    }
    forall k | k in SlotsIn(after) && k != p.slot ensures k in SlotsIn(before) {
      var c :| c in after && after[c].packet.slot == k;
      assert before[c].packet.slot == k;
    }
  }

  lemma SlotsAfterRemoval(states: map<string, ClockState>, camera: string)
    ensures SlotsIn(states)
      == SlotsIn(states - {camera}) + (if camera in states then {states[camera].packet.slot} else {})
  {
    var after := states - {camera};
    forall k | k in SlotsIn(states) && !(camera in states && states[camera].packet.slot == k)
      ensures k in SlotsIn(after) {
      var c :| c in states && states[c].packet.slot == k;
      assert after[c].packet.slot == k;
    }
  }

  /** Some cameras' packets marked as emitted. */
  function Marked(states: map<string, ClockState>, ids: seq<string>): map<string, ClockState> {
    map c | c in states :: if c in ids then ClockState(states[c].packet, states[c].packet.info.sequence) else states[c]
  }

  lemma MarkedNone(states: map<string, ClockState>)
    ensures Marked(states, []) == states
  {
  }

  lemma MarkedOne(states: map<string, ClockState>, ids: seq<string>, id: string)
    requires id in states
    ensures var marked := Marked(states, ids);
            && marked.Keys == states.Keys
            && Marked(states, ids + [id])
                 == marked[id := marked[id].(emittedSequence := marked[id].packet.info.sequence)]
  {
  }

  lemma OneSlotEachAfter(states: map<string, ClockState>, camera: string, state: ClockState)
    requires OneSlotEach(states)
    requires forall c :: c in states && c != camera ==> states[c].packet.slot != state.packet.slot
    ensures OneSlotEach(states[camera := state])
  {
  }

  class MultiCameraSynchronizer {
    const toleranceMs: real
    ghost const pool: SharedMemoryFrameStore?
    var cameraIds: seq<string>
    var latest: map<string, ClockState>
    var bundleId: nat

    ghost function View(): SyncState
      reads this
    {
      SyncState(cameraIds, toleranceMs, Clocks(latest), bundleId)
    }

    ghost function Held(): set<FramePacket>
      reads this`latest
    {
      PacketsIn(latest)
    }

    ghost function HeldSlots(): set<nat>
      reads this`latest
    {
      SlotsIn(latest)
    }

    /** An unreleased packet of the camera; over shared memory its slot is in use and shows its pixels. */
    ghost predicate Good(camera: string, p: FramePacket)
      reads p, if pool == null then {} else {pool}
    {
      && p.info.camera == camera && p.store == pool && !p.released
      && (pool != null ==> p.slot in pool.inUse && p.slot in pool.blocks && pool.blocks[p.slot] == p.info.frame)
    }

    /** What is held is unreleased, one packet a camera and, over shared memory, one slot a packet. */
    ghost predicate Valid()
      reads this`latest, Held(), if pool == null then {} else {pool}
    {
      && (forall c :: c in latest ==> Good(c, latest[c].packet))
      && (pool != null ==> pool.Valid() && OneSlotEach(latest))
    }

    constructor (cameraIds: seq<string>, toleranceMs: real, ghost pool: SharedMemoryFrameStore?)
      requires pool != null ==> pool.Valid()
      ensures Valid() && this.cameraIds == cameraIds && latest == map[] && bundleId == 0 && this.pool == pool
      ensures this.toleranceMs == if toleranceMs < 0.0 then 0.0 else toleranceMs
    {
      this.cameraIds := cameraIds;
      this.toleranceMs := if toleranceMs < 0.0 then 0.0 else toleranceMs;
      this.pool := pool;
      latest, bundleId := map[], 0;
    }

    /** A packet with its pixels in place, in a slot no other held packet has. */
    ghost predicate Takes(p: FramePacket)
      reads this, p, if pool == null then {} else {pool}
    {
      && Good(p.info.camera, p)
      && (pool != null ==> forall c :: c in latest && latest[c].packet != p ==> latest[c].packet.slot != p.slot)
    }

    /** The packet a submit replaces, if it is another one. */
    ghost function Replaced(p: FramePacket): set<FramePacket>
      reads this
    {
      if p.info.camera in latest && latest[p.info.camera].packet != p then {latest[p.info.camera].packet} else {}
    }

    ghost function ReplacedSlots(p: FramePacket): set<nat>
      reads this
    {
      set q | q in Replaced(p) :: q.slot
    }

    method ReleaseReplaced(packet: FramePacket)
      requires Valid() && Takes(packet)
      modifies Replaced(packet), if pool == null then {} else {pool}
      ensures forall p :: p in Replaced(packet) ==> p.released
      ensures forall c :: c in latest && c != packet.info.camera ==> Good(c, latest[c].packet)
      ensures Good(packet.info.camera, packet)
      ensures pool != null ==>
        && pool.Valid()
        && pool.blocks == old(pool.blocks)
        && pool.inUse == old(pool.inUse) - ReplacedSlots(packet)
    {
      hide Slots.Valid, Slots.Release;
      var camera := packet.info.camera;
      if camera in latest && latest[camera].packet != packet {
        latest[camera].packet.Release();
      }
    }

    /** The first half of `submit`: the packet replaces its camera's previous one, which is released. */
    method Store(packet: FramePacket)
      requires Valid() && Takes(packet)
      modifies this`latest, Replaced(packet), if pool == null then {} else {pool}
      ensures Valid()
      ensures View() == Stored(old(View()), packet.info)
      ensures Replaces(old(latest), packet, latest)
      ensures forall p :: p in old(Replaced(packet)) ==> p.released
      ensures pool != null ==>
        && pool.blocks == old(pool.blocks)
        && pool.inUse == old(pool.inUse) - old(ReplacedSlots(packet))
    {
      hide Slots.Valid, Good, OneSlotEach, Takes, Replaced;
      var camera := packet.info.camera;
      var emitted := if camera in latest then latest[camera].emittedSequence else -1;
      var state := ClockState(packet, emitted);
      ViewAfterUpdate(camera, state);
      if pool != null {
        TakesASlotOfItsOwn(packet, state);
      }
      ReleaseReplaced(packet);
      latest := latest[camera := state];
    }

    lemma TakesASlotOfItsOwn(packet: FramePacket, state: ClockState)
      requires Valid() && Takes(packet) && state.packet == packet && pool != null
      ensures OneSlotEach(latest[packet.info.camera := state])
    {
      hide Slots.Valid;
      forall c | c in latest && c != packet.info.camera ensures latest[c].packet.slot != packet.slot {
        assert Good(c, latest[c].packet);
      }
      OneSlotEachAfter(latest, packet.info.camera, state);
    }

    ghost function Clocks(states: map<string, ClockState>): map<string, Clock> {
      map c | c in states :: Clock(states[c].packet.info, states[c].emittedSequence)
    }

    lemma ViewAfterUpdate(camera: string, state: ClockState)
      ensures Clocks(latest[camera := state])
        == Clocks(latest)[camera := Clock(state.packet.info, state.emittedSequence)]
    {
    }

    /** Mark every camera's packet as emitted. */
    method MarkEmitted()
      requires Valid() && forall c :: c in cameraIds ==> c in latest
      modifies this`latest, this`bundleId
      ensures Valid() && View() == Emitted(old(View()))
      ensures latest.Keys == old(latest).Keys
      ensures forall c :: c in latest ==> latest[c].packet == old(latest)[c].packet
    {
      hide Valid, Marked;
      ghost var before := latest;
      bundleId := bundleId + 1;
      var i := 0;
      MarkedNone(before);
      while i < |cameraIds|
        invariant 0 <= i <= |cameraIds|
        invariant latest == Marked(before, cameraIds[..i]) && latest.Keys == before.Keys
        invariant bundleId == old(bundleId) + 1
      {
        var id := cameraIds[i];
        MarkedOne(before, cameraIds[..i], id);
        assert cameraIds[..i + 1] == cameraIds[..i] + [id];
        latest := latest[id := latest[id].(emittedSequence := latest[id].packet.info.sequence)];
        i := i + 1;
      }
      assert cameraIds[..i] == cameraIds;
      MarkedIsEmitted(before);
    }

    /** Marking leaves the packets, so all stays valid, and gives the emitted state. */
    twostate lemma MarkedIsEmitted(before: map<string, ClockState>)
      requires old(Valid()) && before == old(latest) && latest == Marked(before, cameraIds)
      requires cameraIds == old(cameraIds) && bundleId == old(bundleId) + 1
      requires unchanged(old(Held())) && (pool != null ==> unchanged(pool))
      requires forall c :: c in cameraIds ==> c in before
      ensures Valid() && View() == Emitted(old(View()))
      ensures latest.Keys == before.Keys && forall c :: c in latest ==> latest[c].packet == before[c].packet
    {
      hide Slots.Valid;
      assert Clocks(latest) == Emitted(old(View())).latest;
      forall c | c in latest ensures Good(c, latest[c].packet) {
        assert old(Good(c, before[c].packet)) && before[c].packet in old(Held());
      }
    }

    /** The group's packets, in the group's order. */
    method GroupPackets() returns (packets: seq<FramePacket>)
      requires forall c :: c in cameraIds ==> c in latest
      ensures |packets| == |cameraIds| && Infos(packets) == Packets(View())
      ensures forall i :: 0 <= i < |cameraIds| ==> packets[i] == latest[cameraIds[i]].packet
    {
      var states := latest;
      packets := seq(|cameraIds|, i requires 0 <= i < |cameraIds| && cameraIds[i] in states reads this =>
        states[cameraIds[i]].packet);
    }

    /** The packets of a bundle and their span, if every camera is there, aligned, and one is new. */
    method Aligned() returns (ready: Option<(seq<FramePacket>, real)>)
      requires cameraIds != []
      ensures ready.Some? <==> Emits(View())
      ensures ready.Some? ==>
        && Infos(ready.value.0) == Packets(View())
        && |ready.value.0| == |cameraIds| && Spans(ready.value.1, ready.value.0)
        && (forall c :: c in cameraIds ==> c in latest)
        && (forall i :: 0 <= i < |cameraIds| ==>
             cameraIds[i] in latest && ready.value.0[i] == latest[cameraIds[i]].packet)
    {
      hide Infos, Packets, Within, Spans;
      if exists c :: c in cameraIds && c !in latest {
        return None;
      }
      var packets := GroupPackets();
      var newest, oldest := StampRange(packets);
      SpanDecides(packets, newest, oldest, toleranceMs);
      var spanMs := (newest - oldest) as real / 1000000.0;
      if spanMs > toleranceMs {
        return None;
      }
      if forall c :: c in cameraIds ==> latest[c].emittedSequence == latest[c].packet.info.sequence {
        assert NothingNew(View());
        return None;
      }
      ready := Some((packets, spanMs));
    }

    /** The second half of `submit`: a bundle, if there can be one. */
    method Collect() returns (bundle: Option<Bundle>)
      requires Valid() && cameraIds != []
      modifies this`latest, this`bundleId
      ensures Valid()
      ensures View() == if Emits(old(View())) then Emitted(old(View())) else old(View())
      ensures bundle.Some? <==> Emits(old(View()))
      ensures latest.Keys == old(latest).Keys
      ensures forall c :: c in latest ==> latest[c].packet == old(latest)[c].packet
      ensures bundle.Some? ==>
        && BundleInfo(bundle.value.bundleId, Infos(bundle.value.packets))
             == BundleInfo(old(bundleId), Packets(old(View())))
        && (forall i :: 0 <= i < |cameraIds| ==>
             cameraIds[i] in latest && bundle.value.packets[i] == latest[cameraIds[i]].packet)
      ensures bundle.Some? ==> Spans(bundle.value.spanMs, bundle.value.packets)
    {
      hide Spans, Slots.Valid, Good, Infos, Packets, Within, Emits, Emitted, Clocks, OneSlotEach;
      var ready := Aligned();
      if ready.None? {
        return None;
      }
      bundle := Some(Bundle(bundleId, ready.value.0, ready.value.1));
      MarkEmitted();
    }

    /** `submit`. The group must not be empty: the stamps of no packets have no maximum. What it
        returns and the state it leaves are `AfterSubmit`'s; a bundle's packets are the ones held,
        in the group's order; the packet that is replaced, and nothing else, is released. */
    method Submit(packet: FramePacket) returns (bundle: Option<Bundle>)
      requires Valid() && Takes(packet) && cameraIds != []
      modifies this`latest, this`bundleId, Replaced(packet), if pool == null then {} else {pool}
      ensures Valid()
      ensures View() == AfterSubmit(old(View()), packet.info).0
      ensures bundle.Some? <==> AfterSubmit(old(View()), packet.info).1.Some?
      ensures bundle.Some? ==>
        && BundleInfo(bundle.value.bundleId, Infos(bundle.value.packets))
             == AfterSubmit(old(View()), packet.info).1.value
        && |bundle.value.packets| == |cameraIds|
        && (forall i :: 0 <= i < |cameraIds| ==>
             cameraIds[i] in latest && bundle.value.packets[i] == latest[cameraIds[i]].packet)
      ensures bundle.Some? ==> Spans(bundle.value.spanMs, bundle.value.packets)
      ensures Replaces(old(latest), packet, latest)
      ensures forall p :: p in old(Replaced(packet)) ==> p.released
      ensures pool != null ==>
        && pool.blocks == old(pool.blocks)
        && pool.inUse == old(pool.inUse) - old(ReplacedSlots(packet))
    {
      hide Spans, Slots.Valid, Good, OneSlotEach, Stored, Emitted, Emits, Clocks;
      Store(packet);
      bundle := Collect();
      assert bundle.Some? ==> |Infos(bundle.value.packets)| == |cameraIds|;
    }

    lemma HeldIsUnreleased(camera: string)
      requires Valid() && camera in latest
      ensures !latest[camera].packet.released
    {
    }

    lemma HeldAreGood(packets: seq<FramePacket>)
      requires Valid() && |packets| == |cameraIds|
      requires forall i :: 0 <= i < |cameraIds| ==> cameraIds[i] in latest && packets[i] == latest[cameraIds[i]].packet
      ensures forall i :: 0 <= i < |packets| ==> packets[i].info.camera == cameraIds[i] && !packets[i].released
    {
    }

    /** `remove_camera`: its packet is released and it leaves the group. */
    method RemoveCamera(camera: string)
      requires Valid()
      modifies this`latest, this`cameraIds, Held(), if pool == null then {} else {pool}
      ensures Valid()
      ensures cameraIds == Filter(old(cameraIds), Other(camera))
      ensures latest == old(latest) - {camera}
      ensures forall c :: c in old(latest) ==> (old(latest)[c].packet.released <==> c == camera)
      ensures pool != null ==>
        && pool.blocks == old(pool.blocks)
        && pool.inUse == old(pool.inUse) - (if camera in old(latest) then {old(latest)[camera].packet.slot} else {})
    {
      hide Good, OneSlotEach, Slots.Valid;
      Drop(camera);
      cameraIds := IdsWithout(camera);
    }

    method Drop(camera: string)
      requires Valid()
      modifies this`latest, Held(), if pool == null then {} else {pool}
      ensures Valid()
      ensures latest == old(latest) - {camera}
      ensures forall c :: c in old(latest) ==> (old(latest)[c].packet.released <==> c == camera)
      ensures pool != null ==>
        && pool.blocks == old(pool.blocks)
        && pool.inUse == old(pool.inUse) - (if camera in old(latest) then {old(latest)[camera].packet.slot} else {})
    {
      hide Slots.Valid, Slots.Release;
      if camera in latest {
        var state := latest[camera];
        latest := latest - {camera};
        state.packet.Release();
      }
    }

    method IdsWithout(camera: string) returns (kept: seq<string>)
      ensures kept == Filter(cameraIds, Other(camera))
    {
      kept := [];
      var i := 0;
      while i < |cameraIds|
        invariant 0 <= i <= |cameraIds|
        invariant kept + Filter(cameraIds[i..], Other(camera)) == Filter(cameraIds, Other(camera))
      {
        if cameraIds[i] != camera {
          kept := kept + [cameraIds[i]];
        }
        i := i + 1;
      }
    }

    /** The held packets, in some order. */
    method HeldPackets() returns (packets: seq<FramePacket>)
      ensures forall i :: 0 <= i < |packets| ==> packets[i] in Held()
      ensures forall c :: c in latest ==> latest[c].packet in packets
    {
      packets := [];
      var todo := latest.Keys;
      while todo != {}
        invariant todo <= latest.Keys
        invariant forall i :: 0 <= i < |packets| ==> packets[i] in Held()
        invariant forall c :: c in latest && c !in todo ==> latest[c].packet in packets
        decreases todo
      {
        var c :| c in todo;
        packets := packets + [latest[c].packet];
        todo := todo - {c};
      }
    }

    /** `close`: everything held is released and the group is empty. */
    method Close()
      requires Valid()
      modifies this`latest, this`cameraIds, Held(), if pool == null then {} else {pool}
      ensures Valid() && latest == map[] && cameraIds == []
      ensures forall c :: c in old(latest) ==> old(latest)[c].packet.released
      ensures pool != null ==>
        && pool.blocks == old(pool.blocks)
        && pool.inUse == old(pool.inUse) - (set c | c in old(latest) :: old(latest)[c].packet.slot)
    {
      hide Slots.Valid, Slots.Release;
      var packets := HeldPackets();
      assert LiveSlots(packets) == set c | c in latest :: latest[c].packet.slot;
      latest := map[];
      ReleaseAll(packets, pool);
      cameraIds := [];
    }
  }
}
