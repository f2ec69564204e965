/** The browser's realtime client: one socket, three timers, snapshots and their caches. */
module RealtimeClient {
  import opened Collections
  import opened InferenceList

  datatype ReadyState = Connecting | Open | Closing | Closed

  datatype ConnectionState = ConnectingState | Connected | Reconnecting | Disconnected | ErrorState

  /** A camera's snapshot; frame, tracking, inference and identity items are payloads. */
  datatype Snapshot = Snapshot(
    frame: Option<Payload>,
    tracking: Option<Payload>,
    inference: seq<Payload>,
    identity: seq<Payload>,
    lastUpdatedAt: Option<int>)

  const EMPTY := Snapshot(None, None, [], [], None)

  datatype Activity = Activity(cameraId: string, topic: string, at: int)

  /** `streamIds` in no particular order. */
  datatype Overview = Overview(
    connectionState: ConnectionState,
    reconnectAttempt: nat,
    lastMessageAt: Option<int>,
    recentActivity: seq<Activity>,
    streamIds: set<string>)

  /** A message that parsed; an empty camera id stands for none. */
  datatype Envelope = Envelope(topic: string, cameraId: string, payload: Option<Payload>)

  const MAX_IDENTITY_ITEMS := 12
  const MAX_ACTIVITY_ITEMS := 30
  const ORPHAN_INFERENCE_TTL_MS := 3000
  const INFERENCE_SWEEP_INTERVAL_MS := 1000
  const HEARTBEAT_INTERVAL_MS := 15000

  // ---------------------------------------------------------------- reconnecting

  function PowerOfTwo(n: nat): nat {
    if n == 0 then 1 else 2 * PowerOfTwo(n - 1)
  }

  /** The wait before the `attempt`-th attempt. */
  function Delay(attempt: nat): int
    requires 1 <= attempt
  {
    Min(10000, 1000 * PowerOfTwo(Min(attempt - 1, 3)))
  }

  /** It doubles three times and stays at eight seconds; the ten-second bound never binds. */
  lemma DelayDoublesToEightSeconds(attempt: nat)
    requires 1 <= attempt
    ensures Delay(attempt) == 1000 * PowerOfTwo(Min(attempt - 1, 3)) <= 8000
    ensures Delay(attempt) == 8000 <==> 4 <= attempt
    ensures Delay(attempt + 1) == Min(8000, 2 * Delay(attempt))
  {
  }

  // ---------------------------------------------------------------- one message

  function NormalizeCameraId(e: Envelope): string {
    var payloadCamera := if e.payload.Some? then e.payload.value.cameraId else "";
    if e.cameraId != "" && payloadCamera != "" && e.cameraId != payloadCamera then ""
    else if e.cameraId != "" then e.cameraId
    else payloadCamera
  }

  /** The message changes its camera's snapshot. */
  predicate ForCamera(e: Envelope) {
    NormalizeCameraId(e) != "" && e.payload.Some? && e.payload.value.cameraId == NormalizeCameraId(e)
  }

  predicate IsFrame(e: Envelope) {
    e.topic == "camera.frames" || (e.payload.Some? && e.payload.value.event == "camera.frame")
  }

  predicate IsTracking(e: Envelope) {
    e.topic in {"camera.tracking.updates", "tracking.updated"}
      || (e.payload.Some? && e.payload.value.event == "tracking.updated")
  }

  predicate IsInference(e: Envelope) {
    e.topic in {"camera.ai_results", "inference"} || (e.payload.Some? && e.payload.value.event == "inference.updated")
  }

  /** A tracking update without a proper list of tracks makes the handler throw. */
  predicate Throws(e: Envelope) {
    ForCamera(e) && !IsFrame(e) && IsTracking(e) && e.payload.value.tracks.None?
  }

  function Otherwise(p: Payload): Payload -> bool {
    (item: Payload) => !(item.localTrackId == p.localTrackId && item.occurredAt == p.occurredAt)
  }

  /** An identity event goes first, in place of one of the same track and time. */
  function PutIdentity(items: seq<Payload>, p: Payload): seq<Payload> {
    var all := [p] + Filter(items, Otherwise(p));
    if |all| > MAX_IDENTITY_ITEMS then all[..MAX_IDENTITY_ITEMS] else all
  }

  function Updated(current: Snapshot, e: Envelope, now: int): Snapshot
    requires ForCamera(e) && !Throws(e)
  {
    var p := e.payload.value;
    var next := current.(lastUpdatedAt := Some(now));
    if IsFrame(e) then next.(frame := Some(p))
    else if IsTracking(e) then
      next.(tracking := Some(p), inference := Prune(next.inference, p.tracks.value, p.cameraId))
    else if IsInference(e) then next.(inference := Upsert(next.inference, p, p.cameraId))
    else if e.topic == "identity.events" then next.(identity := PutIdentity(next.identity, p))
    else next
  }

  // ---------------------------------------------------------------- what a message has to show

  /** The part of a snapshot a message is about. */
  datatype Part = FramePart | TrackingPart | InferencePart | IdentityPart | NoPart

  ghost function PartOf(topic: string, event: string): Part {
    if topic == "camera.frames" || event == "camera.frame" then FramePart
    else if topic == "camera.tracking.updates" || topic == "tracking.updated" || event == "tracking.updated" then
      TrackingPart
    else if topic == "camera.ai_results" || topic == "inference" || event == "inference.updated" then InferencePart
    else if topic == "identity.events" then IdentityPart
    else NoPart
  }

  /** The payload names a camera, and the envelope names it too or none. */
  ghost predicate Addressed(e: Envelope) {
    && e.payload.Some? && e.payload.value.cameraId != ""
    && (e.cameraId == "" || e.cameraId == e.payload.value.cameraId)
  }

  /** A tracking update that has no tracks. */
  ghost predicate Trackless(e: Envelope) {
    Addressed(e) && PartOf(e.topic, e.payload.value.event).TrackingPart? && e.payload.value.tracks.None?
  }

  lemma AddressedIff(e: Envelope)
    ensures Addressed(e) <==> ForCamera(e)
    ensures Trackless(e) <==> Throws(e)
    ensures Addressed(e) ==> NormalizeCameraId(e) == e.payload.value.cameraId
  {
  }

  /** The identity items that are not of the payload's track and time. */
  ghost function NotOfMoment(p: Payload): Payload -> bool {
    (item: Payload) => item.localTrackId != p.localTrackId || item.occurredAt != p.occurredAt
  }

  /** The payload first, then the others in their order, twelve at most. */
  ghost predicate PutFirst(before: seq<Payload>, p: Payload, after: seq<Payload>) {
    var others := Filter(before, NotOfMoment(p));
    after == [p] + others[..Min(11, |others|)]
  }

  /** What the message leaves of the snapshot: a frame or a tracking update is stored, a tracking
      update keeps the inference events on its tracks, an inference event is put into its place,
      an identity event first. All else stays, but for the time. */
  ghost predicate Shows(before: Snapshot, p: Payload, topic: string, now: int, after: Snapshot) {
    var part := PartOf(topic, p.event);
    && after.lastUpdatedAt == Some(now)
    && after.frame == (if part.FramePart? then Some(p) else before.frame)
    && after.tracking == (if part.TrackingPart? then Some(p) else before.tracking)
    && (match part
        case InferencePart =>
          && Placed(before.inference, p, after.inference)
          && p in after.inference && (forall e :: e in after.inference && OneTrack(e, p) ==> e == p)
        case TrackingPart =>
          p.tracks.Some? && after.inference == Filter(before.inference, OnTracks(p.cameraId, p.tracks.value))
        case _ => after.inference == before.inference)
    && (if part.IdentityPart? then PutFirst(before.identity, p, after.identity) else after.identity == before.identity)
  }

  lemma UpdatedShows(current: Snapshot, e: Envelope, now: int)
    requires ForCamera(e) && !Throws(e) && Clean(e.payload.value.cameraId, current)
    ensures Shows(current, e.payload.value, e.topic, now, Updated(current, e, now))
  {
    hide Upsert, Prune, Filter, Placed, OneTrack, PutIdentity;
    var p := e.payload.value;
    if IsFrame(e) {
    } else if IsTracking(e) {
      PruneKeepsExactly(current.inference, p.tracks.value, p.cameraId);
    } else if IsInference(e) {
      InferenceShows(current.inference, p);
    } else {
      IdentityIsPutFirst(current.identity, p);
    }
  }

  lemma InferenceShows(events: seq<Payload>, p: Payload)
    requires AllOf(events, p.cameraId) && |events| <= MAX_INFERENCE_ITEMS
    ensures var next := Upsert(events, p, p.cameraId);
            Placed(events, p, next) && p in next && forall e :: e in next && OneTrack(e, p) ==> e == p
  {
    hide Upsert, Placed, SameTrack, OneTrack;
    UpsertPlaces(events, p, p.cameraId);
    UpsertPutsTheEvent(events, p, p.cameraId);
    forall e | e in Upsert(events, p, p.cameraId) && OneTrack(e, p) ensures e == p {
      SameTrackIff(e, p);
    }
  }

  lemma IdentityIsPutFirst(items: seq<Payload>, p: Payload)
    ensures PutFirst(items, p, PutIdentity(items, p))
  {
    FilterAgrees(items, Otherwise(p), NotOfMoment(p));
  }

  function TracksOf(s: Snapshot): Option<seq<Track>> {
    if s.tracking.Some? then s.tracking.value.tracks else None
  }

  function Swept(current: Snapshot, camera: string, cutoff: int): Snapshot {
    current.(inference := Sweep(current.inference, TracksOf(current), camera, cutoff))
  }

  ghost predicate AllOf(items: seq<Payload>, camera: string) {
    forall p :: p in items ==> p.cameraId == camera
  }

  /** Everything in a camera's snapshot is that camera's, and the lists keep their limits. */
  ghost predicate Clean(camera: string, s: Snapshot) {
    && (s.frame.Some? ==> s.frame.value.cameraId == camera)
    && (s.tracking.Some? ==> s.tracking.value.cameraId == camera && s.tracking.value.tracks.Some?)
    && AllOf(s.inference, camera) && |s.inference| <= MAX_INFERENCE_ITEMS
    && AllOf(s.identity, camera) && |s.identity| <= MAX_IDENTITY_ITEMS
  }

  lemma {:induction false} UpdatedIsClean(current: Snapshot, e: Envelope, now: int)
    requires ForCamera(e) && !Throws(e) && Clean(e.payload.value.cameraId, current)
    ensures Clean(e.payload.value.cameraId, Updated(current, e, now))
  {
    hide Upsert, Otherwise, InferenceList.Current, IsFrame, IsTracking, IsInference;
    var p := e.payload.value;
    if IsFrame(e) {
    } else if IsTracking(e) {
      PruneKeepsTheAttached(current.inference, p.tracks.value, p.cameraId);
      FilterIsExact(current.inference, InferenceList.Current(p.cameraId, p.tracks, None));
    } else if IsInference(e) {
      UpsertPutsTheEvent(current.inference, p, p.cameraId);
    } else {
      FilterIsExact(current.identity, Otherwise(p));
    }
  }

  /** Of the inference events those stay, in order, that are on a track of the last tracking update or
      younger than three seconds; nothing else changes. */
  ghost predicate KeepsCurrent(before: Snapshot, camera: string, now: int, after: Snapshot) {
    var tracks := if before.tracking.Some? && before.tracking.value.tracks.Some? then before.tracking.value.tracks.value
                  else [];
    after == before.(inference := Filter(before.inference, OnTracksOrYoung(camera, tracks, now - 3000)))
  }

  lemma SweptKeepsCurrent(before: Snapshot, camera: string, now: int)
    ensures KeepsCurrent(before, camera, now, Swept(before, camera, now - ORPHAN_INFERENCE_TTL_MS))
  {
    hide Filter, Sweep;
    SweepKeepsExactly(before.inference, TracksOf(before), camera, now - ORPHAN_INFERENCE_TTL_MS);
  }

  lemma SweptIsClean(current: Snapshot, camera: string, cutoff: int)
    requires Clean(camera, current)
    ensures Clean(camera, Swept(current, camera, cutoff))
    ensures |Swept(current, camera, cutoff).inference| == |current.inference| ==>
      Swept(current, camera, cutoff) == current
  {
    FilterIsExact(current.inference, InferenceList.Current(camera, TracksOf(current), Some(cutoff)));
  }

  // ---------------------------------------------------------------- the client

  /** What arrives on a socket. */
  datatype Raw = Unparseable | Null | Parsed(envelope: Envelope)

  predicate Breaks(raw: Raw) {
    raw.Null? || (raw.Parsed? && Throws(raw.envelope))
  }

  /** The message is `null`, or a tracking update without tracks. */
  ghost predicate Unusable(raw: Raw) {
    raw.Null? || (raw.Parsed? && Trackless(raw.envelope))
  }

  /** All the client keeps. */
  datatype ClientState = ClientState(
    socket: Option<nat>,
    connectionState: ConnectionState,
    reconnectAttempt: nat,
    reconnectTimer: Option<nat>,
    heartbeatTimer: Option<nat>,
    sweepTimer: Option<nat>,
    started: bool,
    lastMessageAt: Option<int>,
    streamSnapshots: map<string, Snapshot>,
    recentActivity: seq<Activity>,
    cachedOverview: Option<Overview>,
    cachedCameras: map<string, Snapshot>)

  function Elements<T>(o: Option<T>): set<T> {
    if o.Some? then {o.value} else {}
  }

  class RealtimeClient {
    // The browser: every socket made so far with its state, and the timers that will fire.
    var ready: map<nat, ReadyState>
    var armed: map<nat, int>
    var nextId: nat

    var socket: Option<nat>
    var connectionState: ConnectionState
    var reconnectAttempt: nat
    var reconnectTimer: Option<nat>
    var heartbeatTimer: Option<nat>
    var sweepTimer: Option<nat>
    var started: bool
    var lastMessageAt: Option<int>
    var streamSnapshots: map<string, Snapshot>
    var recentActivity: seq<Activity>
    var cachedOverview: Option<Overview>
    var cachedCameras: map<string, Snapshot>

    ghost function State(): ClientState
      reads this
    {
      ClientState(socket, connectionState, reconnectAttempt, reconnectTimer, heartbeatTimer, sweepTimer, started,
                  lastMessageAt, streamSnapshots, recentActivity, cachedOverview, cachedCameras)
    }

    function LiveOverview(): Overview
      reads this`connectionState, this`reconnectAttempt, this`lastMessageAt, this`recentActivity, this`streamSnapshots
    {
      Overview(connectionState, reconnectAttempt, lastMessageAt, recentActivity, streamSnapshots.Keys)
    }

    function LiveCamera(camera: string): Snapshot
      reads this`streamSnapshots
    {
      if camera in streamSnapshots then streamSnapshots[camera] else EMPTY
    }

    /** The current socket is not closed yet. */
    predicate SocketLives()
      reads this`socket, this`ready
    {
      socket.Some? && socket.value in ready && ready[socket.value] != Closed
    }

    /** The timers that will fire are the ones on record, each under one name. */
    ghost predicate Timers()
      reads this`ready, this`armed, this`nextId, this`socket, this`reconnectAttempt
      reads this`reconnectTimer, this`heartbeatTimer, this`sweepTimer
    {
      && armed.Keys == Elements(reconnectTimer) + Elements(heartbeatTimer) + Elements(sweepTimer)
      && (reconnectTimer.Some? ==> reconnectTimer != heartbeatTimer && reconnectTimer != sweepTimer)
      && (heartbeatTimer.Some? ==> heartbeatTimer != sweepTimer)
      && (forall t :: t in armed ==> t < nextId)
      && (forall s :: s in ready ==> s < nextId)
      && (socket.Some? ==> socket.value in ready)
      && (heartbeatTimer.Some? ==> SocketLives())
      && (reconnectTimer.Some? ==> 1 <= reconnectAttempt && armed[reconnectTimer.value] == Delay(reconnectAttempt))
      && (heartbeatTimer.Some? ==> armed[heartbeatTimer.value] == 15000)
      && (sweepTimer.Some? ==> armed[sweepTimer.value] == 1000)
    }

    /** While started, either the current socket is not closed or a reconnect is due, never both;
        while stopped there is no socket and no timer. */
    ghost predicate Linked()
      reads this`ready, this`armed, this`nextId, this`socket, this`reconnectAttempt
      reads this`reconnectTimer, this`heartbeatTimer, this`sweepTimer, this`started
    {
      && Timers()
      && (if started then
            sweepTimer.Some? && (SocketLives() <==> reconnectTimer.None?)
          else
            socket.None? && reconnectTimer.None? && heartbeatTimer.None? && sweepTimer.None?)
    }

    ghost predicate SnapshotsClean()
      reads this`streamSnapshots, this`recentActivity
    {
      && (forall c :: c in streamSnapshots ==> Clean(c, streamSnapshots[c]))
      && |recentActivity| <= MAX_ACTIVITY_ITEMS
    }

    ghost predicate CameraCachesLive()
      reads this`cachedCameras, this`streamSnapshots
    {
      forall c :: c in cachedCameras ==> cachedCameras[c] == LiveCamera(c)
    }

    /** Whatever is cached is what a new snapshot would show. */
    ghost predicate CachesLive()
      reads this`connectionState, this`reconnectAttempt, this`lastMessageAt, this`recentActivity, this`streamSnapshots
      reads this`cachedOverview, this`cachedCameras
    {
      (cachedOverview.Some? ==> cachedOverview.value == LiveOverview()) && CameraCachesLive()
    }

    ghost predicate Valid()
      reads this
    {
      Linked() && SnapshotsClean() && CachesLive()
    }

    constructor ()
      ensures Valid() && !started && armed == map[] && ready == map[]
      ensures lastMessageAt.None? && cachedOverview.None?
    {
      ready, armed, nextId := map[], map[], 0;
      socket, connectionState, reconnectAttempt := None, Disconnected, 0;
      reconnectTimer, heartbeatTimer, sweepTimer, started := None, None, None, false;
      lastMessageAt, streamSnapshots, recentActivity, cachedOverview, cachedCameras := None, map[], [], None, map[];
    }

    // -------------------------------------------------------------- snapshots and listeners

    method GetOverviewSnapshot() returns (o: Overview)
      modifies this`cachedOverview
      ensures cachedOverview == Some(o)
      ensures o == if old(cachedOverview).Some? then old(cachedOverview).value else LiveOverview()
      ensures old(Valid()) ==> Valid() && o == LiveOverview()
      ensures old(Valid()) ==>
        && o.connectionState == connectionState && o.reconnectAttempt == reconnectAttempt
        && o.lastMessageAt == lastMessageAt && o.recentActivity == recentActivity
        && o.streamIds == streamSnapshots.Keys
    {
      if cachedOverview.None? {
        cachedOverview := Some(LiveOverview());
      }
      o := cachedOverview.value;
    }

    method GetCameraSnapshot(camera: string) returns (s: Snapshot)
      modifies this`cachedCameras
      ensures s == if camera in old(cachedCameras) then old(cachedCameras)[camera] else LiveCamera(camera)
      ensures cachedCameras == old(cachedCameras)[camera := s]
      ensures old(Valid()) ==> Valid() && s == LiveCamera(camera)
      ensures old(Valid()) ==>
        s == if camera in streamSnapshots then streamSnapshots[camera] else Snapshot(None, None, [], [], None)
    {
      if camera in cachedCameras {
        return cachedCameras[camera];
      }
      s := LiveCamera(camera);
      cachedCameras := cachedCameras[camera := s];
    }

    /** Listeners read any snapshots they like; that fills caches and does nothing else. */
    method Listen()
      modifies this`cachedOverview, this`cachedCameras
      ensures if old(cachedOverview).Some? then cachedOverview == old(cachedOverview)
              else cachedOverview.None? || cachedOverview == Some(LiveOverview())
      ensures forall c :: c in old(cachedCameras) ==> c in cachedCameras && cachedCameras[c] == old(cachedCameras)[c]
      ensures forall c :: c in cachedCameras && c !in old(cachedCameras) ==> cachedCameras[c] == LiveCamera(c)
    {
      var readsOverview: bool := *;
      if readsOverview {
        var _ := GetOverviewSnapshot();
      }
      var cameras: set<string> := *;
      while cameras != {}
        invariant forall c :: c in old(cachedCameras) ==>
          c in cachedCameras && cachedCameras[c] == old(cachedCameras)[c]
        invariant forall c :: c in cachedCameras && c !in old(cachedCameras) ==> cachedCameras[c] == LiveCamera(c)
        invariant if old(cachedOverview).Some? then cachedOverview == old(cachedOverview)
                  else cachedOverview.None? || cachedOverview == Some(LiveOverview())
        decreases cameras
      {
        var c :| c in cameras;
        cameras := cameras - {c};
        var _ := GetCameraSnapshot(c);
      }
    }

    /** Afterwards the overview's cache is right, whatever it was before. */
    method NotifyOverview()
      requires CameraCachesLive()
      modifies this`cachedOverview, this`cachedCameras
      ensures CachesLive()
    {
      cachedOverview := None;
      Listen();
    }

    /** Afterwards the camera's cache is right; the overview's is what it was, or right. */
    method NotifyCamera(camera: string)
      requires forall c :: c in cachedCameras && c != camera ==> cachedCameras[c] == LiveCamera(c)
      modifies this`cachedOverview, this`cachedCameras
      ensures CameraCachesLive()
      ensures old(cachedOverview.Some? ==> cachedOverview.value == LiveOverview()) ==> CachesLive()
    {
      cachedCameras := cachedCameras - {camera};
      Listen();
    }

    method SetConnectionState(next: ConnectionState)
      requires CameraCachesLive()
      modifies this`connectionState, this`cachedOverview, this`cachedCameras
      ensures connectionState == next && CachesLive()
    {
      connectionState := next;
      NotifyOverview();
    }

    // -------------------------------------------------------------- timers and sockets, one at a time

    method SetAttempt(n: nat)
      requires Timers() && reconnectTimer.None?
      modifies this`reconnectAttempt
      ensures Timers() && reconnectAttempt == n
    {
      reconnectAttempt := n;
    }

    method ArmReconnect()
      requires Timers() && reconnectTimer.None? && 1 <= reconnectAttempt
      modifies this`armed, this`nextId, this`reconnectTimer
      ensures Timers() && reconnectTimer.Some?
    {
      hide Delay;
      armed := armed[nextId := Delay(reconnectAttempt)];
      reconnectTimer := Some(nextId);
      nextId := nextId + 1;
    }

    method DropReconnect()
      requires Timers()
      modifies this`armed, this`reconnectTimer
      ensures Timers() && reconnectTimer.None?
    {
      if reconnectTimer.Some? {
        armed := armed - {reconnectTimer.value};
        reconnectTimer := None;
      }
    }

    method StartHeartbeat()
      requires Timers() && SocketLives()
      modifies this`armed, this`nextId, this`heartbeatTimer
      ensures Timers() && heartbeatTimer.Some?
    {
      hide Delay;
      StopHeartbeat();
      armed := armed[nextId := HEARTBEAT_INTERVAL_MS];
      heartbeatTimer := Some(nextId);
      nextId := nextId + 1;
    }

    method StopHeartbeat()
      requires Timers()
      modifies this`armed, this`heartbeatTimer
      ensures Timers() && heartbeatTimer.None?
    {
      if heartbeatTimer.Some? {
        armed := armed - {heartbeatTimer.value};
        heartbeatTimer := None;
      }
    }

    method ArmSweep()
      requires Timers() && sweepTimer.None?
      modifies this`armed, this`nextId, this`sweepTimer
      ensures Timers() && sweepTimer.Some?
    {
      hide Delay;
      armed := armed[nextId := INFERENCE_SWEEP_INTERVAL_MS];
      sweepTimer := Some(nextId);
      nextId := nextId + 1;
    }

    method DropSweep()
      requires Timers()
      modifies this`armed, this`sweepTimer
      ensures Timers() && sweepTimer.None?
    {
      if sweepTimer.Some? {
        armed := armed - {sweepTimer.value};
        sweepTimer := None;
      }
    }

    /** The browser moves a socket to another state. */
    method SetReady(s: nat, state: ReadyState)
      requires Timers() && s in ready && (Some(s) == socket && heartbeatTimer.Some? ==> state != Closed)
      modifies this`ready
      ensures Timers() && ready == old(ready)[s := state]
    {
      ready := ready[s := state];
    }

    method NewSocket()
      requires Timers() && heartbeatTimer.None?
      modifies this`ready, this`nextId, this`socket
      ensures Timers() && SocketLives()
    {
      ready := ready[nextId := Connecting];
      socket := Some(nextId);
      nextId := nextId + 1;
    }

    method ForgetSocket()
      requires Timers() && heartbeatTimer.None?
      modifies this`socket
      ensures Timers() && socket.None?
    {
      socket := None;
    }

    // -------------------------------------------------------------- connecting

    lemma CachesInclude()
      ensures CachesLive() ==> CameraCachesLive()
    {
    }

    method ScheduleReconnect()
      requires Timers() && started && CachesLive()
      modifies this`armed, this`nextId, this`reconnectAttempt, this`reconnectTimer
      modifies this`connectionState, this`cachedOverview, this`cachedCameras
      ensures Timers() && CachesLive() && reconnectTimer.Some?
      ensures reconnectAttempt == old(reconnectAttempt) + 1 && connectionState == Reconnecting
    {
      CachesInclude();
      hide *;
      DropReconnect();
      SetAttempt(reconnectAttempt + 1);
      SetConnectionState(Reconnecting);
      CachesInclude();
      ArmReconnect();
      NotifyOverview();
    }

    /** `open`; `fails` says whether making the socket throws. */
    method OpenSocket(fails: bool)
      requires Timers() && started && CachesLive()
      requires reconnectTimer.None? && heartbeatTimer.None?
      modifies this`ready, this`armed, this`nextId, this`socket, this`reconnectAttempt, this`reconnectTimer
      modifies this`connectionState, this`cachedOverview, this`cachedCameras
      ensures Timers() && CachesLive() && heartbeatTimer.None?
      ensures !old(SocketLives()) && !fails ==>
        SocketLives() && reconnectTimer.None? && reconnectAttempt == old(reconnectAttempt)
      ensures !old(SocketLives()) && fails ==>
        !SocketLives() && reconnectTimer.Some? && reconnectAttempt == old(reconnectAttempt) + 1
      ensures !old(SocketLives()) ==>
        connectionState == if fails || 0 < old(reconnectAttempt) then Reconnecting else ConnectingState
    {
      hide Timers, LiveOverview, LiveCamera, CameraCachesLive, CachesLive;
      if SocketLives() && ready[socket.value] != Closing {
        return;
      }
      CachesInclude();
      SetConnectionState(if reconnectAttempt > 0 then Reconnecting else ConnectingState);
      if fails {
        ScheduleReconnect();
        return;
      }
      NewSocket();
    }

    method Start(fails: bool)
      requires Valid()
      modifies this
      ensures Valid() && started
      ensures old(started) ==> State() == old(State())
      ensures !old(started) ==>
        && (SocketLives() <==> !fails)
        && connectionState == (if fails || 0 < old(reconnectAttempt) then Reconnecting else ConnectingState)
      ensures streamSnapshots == old(streamSnapshots) && recentActivity == old(recentActivity)
    {
      hide Timers, LiveOverview, LiveCamera, CameraCachesLive, CachesLive, SnapshotsClean;
      if started {
        return;
      }
      started := true;
      OpenSocket(fails);
      ArmSweep();
    }

    /** `stop`: every timer is cleared, the socket told to close and forgotten. The attempt count and
        the snapshots stay. */
    method Stop()
      requires Valid()
      modifies this
      ensures Valid() && !started && socket.None? && connectionState == Disconnected
      ensures ready == if old(SocketLives()) then old(ready)[old(socket).value := Closing] else old(ready)
      ensures streamSnapshots == old(streamSnapshots) && recentActivity == old(recentActivity)
      ensures reconnectAttempt == old(reconnectAttempt) && lastMessageAt == old(lastMessageAt)
    {
      hide Timers, LiveOverview, LiveCamera, CameraCachesLive, CachesLive, SnapshotsClean;
      started := false;
      ClearCaches();
      Disconnect();
      SetConnectionState(Disconnected);
    }

    method Disconnect()
      requires Timers()
      modifies this`ready, this`armed, this`socket, this`reconnectTimer, this`heartbeatTimer, this`sweepTimer
      ensures Timers() && socket.None? && reconnectTimer.None? && heartbeatTimer.None? && sweepTimer.None?
      ensures ready == if old(SocketLives()) then old(ready)[old(socket).value := Closing] else old(ready)
    {
      hide Timers;
      DropReconnect();
      StopHeartbeat();
      DropSweep();
      if SocketLives() {
        SetReady(socket.value, Closing);
      }
      ForgetSocket();
    }

    method ClearCaches()
      modifies this`cachedOverview, this`cachedCameras
      ensures CameraCachesLive() && CachesLive()
    {
      cachedOverview, cachedCameras := None, map[];
    }

    // -------------------------------------------------------------- what the browser reports

    /** A socket opens. An event of any socket but the current one changes nothing here or below. */
    method OnOpen(s: nat)
      requires Valid() && s in ready && ready[s] == Connecting
      modifies this
      ensures Valid()
      ensures Some(s) != old(socket) ==> State() == old(State())
      ensures Some(s) == old(socket) ==>
        socket == old(socket) && connectionState == Connected && reconnectAttempt == 0 && heartbeatTimer.Some?
      ensures streamSnapshots == old(streamSnapshots) && started == old(started)
    {
      hide Timers, SnapshotsClean, LiveOverview, LiveCamera, CameraCachesLive, CachesLive;
      SetReady(s, Open);
      if Some(s) != socket {
        return;
      }
      BeConnected();
    }

    method BeConnected()
      requires Timers() && CachesLive() && reconnectTimer.None? && SocketLives()
      modifies this`armed, this`nextId, this`heartbeatTimer, this`reconnectAttempt
      modifies this`connectionState, this`cachedOverview, this`cachedCameras
      ensures Timers() && CachesLive() && connectionState == Connected && reconnectAttempt == 0 && heartbeatTimer.Some?
    {
      CachesInclude();
      hide *;
      SetAttempt(0);
      SetConnectionState(Connected);
      StartHeartbeat();
    }

    method OnError(s: nat)
      requires Valid()
      modifies this`connectionState, this`cachedOverview, this`cachedCameras
      ensures Valid()
      ensures Some(s) != socket ==> State() == old(State())
      ensures Some(s) == socket ==> connectionState == ErrorState
    {
      hide Linked, SnapshotsClean;
      if Some(s) != socket {
        return;
      }
      SetConnectionState(ErrorState);
    }

    /** A socket is closed: the current one makes way for a reconnect. While stopped there is no
        current one. */
    method OnClose(s: nat)
      requires Valid() && s in ready && ready[s] != Closed
      modifies this
      ensures Valid()
      ensures Some(s) != old(socket) ==> State() == old(State())
      ensures Some(s) == old(socket) ==>
        reconnectTimer.Some? && reconnectAttempt == old(reconnectAttempt) + 1 && connectionState == Reconnecting
      ensures streamSnapshots == old(streamSnapshots) && started == old(started)
    {
      hide Timers, SnapshotsClean, LiveOverview, LiveCamera, CameraCachesLive, CachesLive;
      if Some(s) != socket {
        SetReady(s, Closed);
        return;
      }
      StopHeartbeat();
      SetReady(s, Closed);
      if started {
        ScheduleReconnect();
      }
    }

    /** The reconnect timer goes off. */
    method FireReconnect(fails: bool)
      requires Valid() && reconnectTimer.Some?
      modifies this
      ensures Valid() && started
      ensures fails ==> reconnectTimer.Some? && reconnectAttempt == old(reconnectAttempt) + 1
      ensures !fails ==> SocketLives() && reconnectAttempt == old(reconnectAttempt)
      ensures connectionState == Reconnecting
      ensures streamSnapshots == old(streamSnapshots)
    {
      NoHeartbeatWithoutSocket();
      hide Timers, SnapshotsClean, LiveOverview, LiveCamera, CameraCachesLive, CachesLive;
      DropReconnect();
      OpenSocket(fails);
    }

    lemma NoHeartbeatWithoutSocket()
      requires Timers()
      ensures !SocketLives() ==> heartbeatTimer.None?
    {
    }

    /** Once stopped, nothing is armed and every socket is a stranger: no late timer can fire, and the
        handlers' contracts say that a stranger's event changes nothing. */
    lemma StoppedIsQuiet(s: nat)
      requires Valid() && !started
      ensures armed == map[] && Some(s) != socket
    {
    }

    // -------------------------------------------------------------- messages

    method PushActivity(camera: string, topic: string, now: int)
      requires |recentActivity| <= MAX_ACTIVITY_ITEMS
      modifies this`recentActivity
      ensures |recentActivity| <= MAX_ACTIVITY_ITEMS
      ensures recentActivity ==
        var all := [Activity(camera, topic, now)] + old(recentActivity);
        if |all| > MAX_ACTIVITY_ITEMS then all[..MAX_ACTIVITY_ITEMS] else all
    {
      recentActivity := [Activity(camera, topic, now)] + recentActivity;
      if |recentActivity| > MAX_ACTIVITY_ITEMS {
        recentActivity := recentActivity[..MAX_ACTIVITY_ITEMS];
      }
    }

    /** The message has been shown in its camera's snapshot, and is the first of the activities. */
    twostate predicate Shown(e: Envelope, now: int)
      requires e.payload.Some?
      reads this`streamSnapshots, this`recentActivity
    {
      var camera := e.payload.value.cameraId;
      var activities := [Activity(camera, e.topic, now)] + old(recentActivity);
      && streamSnapshots.Keys == old(streamSnapshots).Keys + {camera}
      && (forall c :: c in old(streamSnapshots) && c != camera ==> streamSnapshots[c] == old(streamSnapshots)[c])
      && Shows(if camera in old(streamSnapshots) then old(streamSnapshots)[camera]
               else Snapshot(None, None, [], [], None),
               e.payload.value, e.topic, now, streamSnapshots[camera])
      && recentActivity == activities[..Min(30, |activities|)]
    }

    /** A camera's snapshot is replaced: the listeners of that camera hear of it at once, those of
        the overview after the activity is noted. */
    method Apply(e: Envelope, now: int)
      requires SnapshotsClean() && CameraCachesLive() && ForCamera(e) && !Throws(e)
      modifies this`streamSnapshots, this`recentActivity, this`cachedOverview, this`cachedCameras
      ensures SnapshotsClean() && CachesLive()
      ensures streamSnapshots ==
        var camera := NormalizeCameraId(e);
        old(streamSnapshots)[camera := Updated(old(LiveCamera(camera)), e, now)]
      ensures Shown(e, now)
    {
      hide Updated, ForCamera, Throws, Clean, Shows, Addressed, Trackless;
      var camera := NormalizeCameraId(e);
      EmptyIsClean(camera);
      CameraOfPayload(e);
      AddressedIff(e);
      UpdatedShows(LiveCamera(camera), e, now);
      UpdatedIsClean(LiveCamera(camera), e, now);
      streamSnapshots := streamSnapshots[camera := Updated(LiveCamera(camera), e, now)];
      NotifyCamera(camera);
      PushActivity(camera, e.topic, now);
      NotifyOverview();
    }

    /** What arrives. Every cache is right afterwards, except after a message the handler breaks on:
        then the time of the last message has changed and an overview that was cached is stale,
        unless that time is the same. */
    method HandleMessage(raw: Raw, now: int)
      requires SnapshotsClean() && CachesLive()
      modifies this`lastMessageAt, this`streamSnapshots, this`recentActivity, this`cachedOverview, this`cachedCameras
      ensures SnapshotsClean()
      ensures CachesLive() <==> !Breaks(raw) || old(cachedOverview).None? || old(lastMessageAt) == Some(now)
      ensures lastMessageAt == if raw.Unparseable? then old(lastMessageAt) else Some(now)
      ensures streamSnapshots ==
        if raw.Parsed? && ForCamera(raw.envelope) && !Breaks(raw) then
          var camera := NormalizeCameraId(raw.envelope);
          old(streamSnapshots)[camera := Updated(old(LiveCamera(camera)), raw.envelope, now)]
        else old(streamSnapshots)
      ensures Breaks(raw) ==> cachedOverview == old(cachedOverview) && recentActivity == old(recentActivity)
      ensures Breaks(raw) <==> Unusable(raw)
      ensures if raw.Parsed? && Addressed(raw.envelope) && !Unusable(raw) then Shown(raw.envelope, now)
              else streamSnapshots == old(streamSnapshots) && recentActivity == old(recentActivity)
    {
      hide Updated, ForCamera, Throws, SnapshotsClean, Shows, Addressed, Trackless;
      if raw.Parsed? {
        AddressedIff(raw.envelope);
      }
      if raw.Unparseable? {
        return;
      }
      lastMessageAt := Some(now);
      if Breaks(raw) {
        return;
      }
      if ForCamera(raw.envelope) {
        Apply(raw.envelope, now);
        return;
      }
      NotifyOverview();
    }

    method OnMessage(s: nat, raw: Raw, now: int)
      requires Valid()
      modifies this`lastMessageAt, this`streamSnapshots, this`recentActivity, this`cachedOverview, this`cachedCameras
      ensures Linked() && SnapshotsClean()
      ensures Valid()
        <==> Some(s) != socket || !Breaks(raw) || old(cachedOverview).None? || old(lastMessageAt) == Some(now)
      ensures Some(s) != socket ==> State() == old(State())
      ensures Some(s) == socket ==>
        if raw.Parsed? && Addressed(raw.envelope) && !Unusable(raw) then Shown(raw.envelope, now)
        else streamSnapshots == old(streamSnapshots) && recentActivity == old(recentActivity)
    {
      hide Linked, SnapshotsClean, CachesLive, Breaks, Addressed, Unusable, Shows;
      if Some(s) != socket {
        return;
      }
      HandleMessage(raw, now);
    }

    /** The sweep timer goes off: each camera keeps what is attached or young. */
    method FireSweep(now: int)
      requires Valid()
      modifies this`streamSnapshots, this`cachedOverview, this`cachedCameras
      ensures Valid()
      ensures streamSnapshots ==
        map c | c in old(streamSnapshots) :: Swept(old(streamSnapshots)[c], c, now - ORPHAN_INFERENCE_TTL_MS)
      ensures forall c :: c in old(streamSnapshots) ==>
        KeepsCurrent(old(streamSnapshots)[c], c, now, streamSnapshots[c])
    {
      hide Linked, Swept, Clean, KeepsCurrent;
      var cutoff := now - ORPHAN_INFERENCE_TTL_MS;
      ghost var all := streamSnapshots;
      var todo := streamSnapshots.Keys;
      while todo != {}
        invariant todo <= all.Keys == streamSnapshots.Keys
        invariant forall c :: c in all ==> streamSnapshots[c] == if c in todo then all[c] else Swept(all[c], c, cutoff)
        invariant Linked() && SnapshotsClean() && CachesLive()
        decreases todo
      {
        var c :| c in todo;
        todo := todo - {c};
        SweepCamera(c, cutoff);
      }
      forall c | c in all ensures KeepsCurrent(all[c], c, now, streamSnapshots[c]) {
        SweptKeepsCurrent(all[c], c, now);
      }
    }

    method SweepCamera(camera: string, cutoff: int)
      requires camera in streamSnapshots && SnapshotsClean() && CachesLive()
      modifies this`streamSnapshots, this`cachedOverview, this`cachedCameras
      ensures SnapshotsClean() && CachesLive()
      ensures streamSnapshots == old(streamSnapshots)[camera := Swept(old(streamSnapshots)[camera], camera, cutoff)]
    {
      hide Swept, Clean;
      var swept := Swept(streamSnapshots[camera], camera, cutoff);
      SweptIsClean(streamSnapshots[camera], camera, cutoff);
      if |swept.inference| != |streamSnapshots[camera].inference| {
        streamSnapshots := streamSnapshots[camera := swept];
        assert streamSnapshots.Keys == old(streamSnapshots).Keys;
        NotifyCamera(camera);
      }
    }
  }

  /** The stale overview in small: a new client shows its overview, the message `null` arrives, and
      the overview shown next still says that no message has come. */
  method NullStalesTheOverview() returns (client: RealtimeClient, shown: Overview)
    ensures client.lastMessageAt == Some(5) && shown.lastMessageAt == None && !client.CachesLive()
  {
    client := new RealtimeClient();
    shown := client.GetOverviewSnapshot();
    client.HandleMessage(Null, 5);
    shown := client.GetOverviewSnapshot();
  }

  lemma EmptyIsClean(camera: string)
    ensures Clean(camera, EMPTY)
  {
  }

  lemma CameraOfPayload(e: Envelope)
    requires ForCamera(e)
    ensures e.payload.Some? && e.payload.value.cameraId == NormalizeCameraId(e)
  {
  }
}
