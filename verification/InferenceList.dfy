/** The browser's per-camera list of inference events and the tracks they belong to. */
module InferenceList {
  import opened Collections

  /** `persistentId` is empty for a track that has none. */
  datatype Track = Track(trackId: string, persistentId: string)

  /** The payload of a message; which fields matter depends on the topic. `tracks` is None when the
      payload has no list of tracks the handler can walk: none at all, something else, or a list
      with a null in it. `body` stands for all that is only displayed. */
  datatype Payload = Payload(
    cameraId: string,
    event: string,
    localTrackId: string,
    persistentId: string,
    emittedAt: int,
    occurredAt: int,
    tracks: Option<seq<Track>>,
    body: nat)

  const MAX_INFERENCE_ITEMS := 12

  function From(camera: string): Payload -> bool {
    (e: Payload) => e.cameraId == camera
  }

  function TrackKey(e: Payload): string {
    if e.persistentId != "" then e.persistentId else e.localTrackId
  }

  /** The two are about one track, by its local id or by its key. */
  predicate SameTrack(item: Payload, event: Payload) {
    item.localTrackId == event.localTrackId || TrackKey(item) == TrackKey(event)
  }

  function Replaced(events: seq<Payload>, event: Payload): seq<Payload> {
    seq(|events|, i requires 0 <= i < |events| => if SameTrack(events[i], event) then event else events[i])
  }

  function Occurrences(events: seq<Payload>, event: Payload): nat {
    if events == [] then 0
    else (if SameTrack(events[0], event) then 1 else 0) + Occurrences(events[1..], event)
  }

  function LastItems(events: seq<Payload>): seq<Payload> {
    if |events| > MAX_INFERENCE_ITEMS then events[|events| - MAX_INFERENCE_ITEMS..] else events
  }

  function Upsert(events: seq<Payload>, event: Payload, camera: string): seq<Payload> {
    var mine := Filter(events, From(camera));
    LastItems(Replaced(mine, event) + (if Occurrences(mine, event) == 0 then [event] else []))
  }

  lemma {:induction false} NoOccurrence(events: seq<Payload>, event: Payload)
    ensures Occurrences(events, event) == 0 <==> forall i :: 0 <= i < |events| ==> !SameTrack(events[i], event)
  {
    if events != [] {
      NoOccurrence(events[1..], event);
      assert events == [events[0]] + events[1..];
    }
  }

  /** `upsertInferenceEvent`, with the flag it sets while mapping. */
  method UpsertInferenceEvent(events: seq<Payload>, event: Payload, camera: string) returns (next: seq<Payload>)
    ensures next == Upsert(events, event, camera)
  {
    hide Filter, SameTrack, Occurrences, LastItems;
    var mine := Filter(events, From(camera));
    var replaced := false;
    next := [];
    var i := 0;
    while i < |mine|
      invariant 0 <= i <= |mine|
      invariant next == Replaced(mine[..i], event)
      invariant replaced <==> exists k :: 0 <= k < i && SameTrack(mine[k], event)
    {
      assert mine[..i + 1] == mine[..i] + [mine[i]];
      if SameTrack(mine[i], event) {
        replaced := true;
        next := next + [event];
      } else {
        next := next + [mine[i]];
      }
      i := i + 1;
    }
    assert mine[..i] == mine;
    NoOccurrence(mine, event);
    assert next + [] == next;
    if !replaced {
      next := next + [event];
    }
    next := LastItems(next);
  }

  /** After an upsert into a list within its limit: the event is there, everything about its track
      is the event itself, the limit holds, and nothing of another camera is left. */
  lemma UpsertPutsTheEvent(events: seq<Payload>, event: Payload, camera: string)
    requires |events| <= MAX_INFERENCE_ITEMS && event.cameraId == camera
    ensures var next := Upsert(events, event, camera);
      && |next| <= MAX_INFERENCE_ITEMS
      && event in next
      && (forall e :: e in next && SameTrack(e, event) ==> e == event)
      && (forall e :: e in next ==> e.cameraId == camera)
      && (forall e :: e in next ==> e == event || e in events)
  {
    hide Filter, Occurrences, SameTrack, Replaced, LastItems;
    FilterIsExact(events, From(camera));
    PutPutsTheEvent(Filter(events, From(camera)), event);
  }

  lemma PutPutsTheEvent(mine: seq<Payload>, event: Payload)
    requires |mine| <= MAX_INFERENCE_ITEMS
    ensures var next := LastItems(Replaced(mine, event) + (if Occurrences(mine, event) == 0 then [event] else []));
      && |next| <= MAX_INFERENCE_ITEMS
      && event in next
      && (forall e :: e in next ==> e == event || (e in mine && !SameTrack(e, event)))
  {
    hide Occurrences, SameTrack;
    NoOccurrence(mine, event);
    var next := LastItems(Replaced(mine, event) + (if Occurrences(mine, event) == 0 then [event] else []));
    if Occurrences(mine, event) != 0 {
      var i :| 0 <= i < |mine| && SameTrack(mine[i], event);
      assert next[i] == event;
    } else {
      assert next[|next| - 1] == event;
    }
  }

  /** About one track: the local ids are the same, or the persistent ids, or the persistent id of one
      is the local id of the other, which has no persistent one. */
  ghost predicate OneTrack(a: Payload, b: Payload) {
    || a.localTrackId == b.localTrackId
    || (a.persistentId != "" && a.persistentId == b.persistentId)
    || (a.persistentId != "" && b.persistentId == "" && a.persistentId == b.localTrackId)
    || (b.persistentId != "" && a.persistentId == "" && b.persistentId == a.localTrackId)
  }

  lemma SameTrackIff(a: Payload, b: Payload)
    ensures SameTrack(a, b) <==> OneTrack(a, b)
  {
  }

  /** The place of everything after an upsert into a camera's own list: an entry about the event's
      track gives way to the event, every other stays; an event about no entry's track comes last,
      and of more than twelve the first falls out. */
  ghost predicate Placed(events: seq<Payload>, event: Payload, next: seq<Payload>) {
    if exists i :: 0 <= i < |events| && OneTrack(events[i], event) then
      && |next| == |events|
      && (forall i :: 0 <= i < |events| ==> next[i] == if OneTrack(events[i], event) then event else events[i])
    else
      next == (if |events| < 12 then events else events[|events| - 11..]) + [event]
  }

  lemma UpsertPlaces(events: seq<Payload>, event: Payload, camera: string)
    requires |events| <= 12 && forall e :: e in events ==> e.cameraId == camera
    ensures Placed(events, event, Upsert(events, event, camera))
  {
    hide Filter, SameTrack, OneTrack, Occurrences, Replaced, LastItems;
    FilterIsExact(events, From(camera));
    assert Filter(events, From(camera)) == events;
    forall i | 0 <= i < |events| ensures SameTrack(events[i], event) <==> OneTrack(events[i], event) {
      SameTrackIff(events[i], event);
    }
    NoOccurrence(events, event);
    if exists i :: 0 <= i < |events| && OneTrack(events[i], event) {
      PlacesTaken(events, event);
    } else {
      NewPlace(events, event);
    }
  }

  lemma PlacesTaken(events: seq<Payload>, event: Payload)
    requires |events| <= 12
    ensures var next := LastItems(Replaced(events, event) + []);
            && |next| == |events|
            && forall i :: 0 <= i < |events| ==> next[i] == if SameTrack(events[i], event) then event else events[i]
  {
    hide SameTrack;
  }

  lemma NewPlace(events: seq<Payload>, event: Payload)
    requires |events| <= 12 && forall i :: 0 <= i < |events| ==> !SameTrack(events[i], event)
    ensures LastItems(Replaced(events, event) + [event])
      == (if |events| < 12 then events else events[|events| - 11..]) + [event]
  {
    hide SameTrack;
    assert Replaced(events, event) == events;
  }

  // ---------------------------------------------------------------- one entry a track

  /** No two entries are about one track. */
  ghost predicate OneEach(events: seq<Payload>) {
    forall i, j :: 0 <= i < j < |events| ==> !SameTrack(events[i], events[j])
  }

  lemma {:induction false} TwoOccurrences(events: seq<Payload>, event: Payload)
    ensures 2 <= Occurrences(events, event)
      <==> exists i, j :: 0 <= i < j < |events| && SameTrack(events[i], event) && SameTrack(events[j], event)
  {
    if events != [] {
      var rest := events[1..];
      TwoOccurrences(rest, event);
      NoOccurrence(rest, event);
      assert forall k :: 0 <= k < |rest| ==> rest[k] == events[k + 1];
      if i, j :| 0 <= i < j < |events| && SameTrack(events[i], event) && SameTrack(events[j], event) {
        assert SameTrack(rest[j - 1], event);
        if 0 < i {
          assert SameTrack(rest[i - 1], event);
        }
      }
      if 2 <= Occurrences(events, event) {
        if 2 <= Occurrences(rest, event) {
          var i, j :| 0 <= i < j < |rest| && SameTrack(rest[i], event) && SameTrack(rest[j], event);
          assert SameTrack(events[i + 1], event) && SameTrack(events[j + 1], event);
        } else {
          var j :| 0 <= j < |rest| && SameTrack(rest[j], event);
          assert SameTrack(events[0], event) && SameTrack(events[j + 1], event);
        }
      }
    }
  }

  lemma {:induction false} FilterKeepsOneEach(events: seq<Payload>, camera: string)
    requires OneEach(events)
    ensures OneEach(Filter(events, From(camera)))
  {
    hide SameTrack, From;
    if events != [] {
      var kept := Filter(events[1..], From(camera));
      FilterKeepsOneEach(events[1..], camera);
      FilterIsExact(events[1..], From(camera));
      OneEachWithFirst(events, kept);
      assert [] + kept == kept;
    }
  }

  lemma OneEachWithFirst(events: seq<Payload>, kept: seq<Payload>)
    requires OneEach(events) && events != [] && OneEach(kept) && forall e :: e in kept ==> e in events[1..]
    ensures OneEach([events[0]] + kept)
  {
    hide SameTrack;
    forall k | 0 <= k < |kept| ensures !SameTrack(events[0], kept[k]) {
      assert kept[k] in events[1..];
    }
  }

  /** A list with one entry a track stays one exactly when the event matches at most one entry. An
      event that matches two - one by local id, another by persistent id - takes both places. */
  lemma UpsertKeepsOneEachIff(events: seq<Payload>, event: Payload, camera: string)
    requires |events| <= MAX_INFERENCE_ITEMS && OneEach(events)
    ensures OneEach(Upsert(events, event, camera)) <==> Occurrences(Filter(events, From(camera)), event) <= 1
  {
    hide Filter, Occurrences, OneEach, Replaced, SameTrack, LastItems;
    FilterIsExact(events, From(camera));
    FilterKeepsOneEach(events, camera);
    PutLastKeepsOneEachIff(Filter(events, From(camera)), event);
  }

  lemma PutLastKeepsOneEachIff(mine: seq<Payload>, event: Payload)
    requires |mine| <= MAX_INFERENCE_ITEMS && OneEach(mine)
    ensures OneEach(LastItems(Replaced(mine, event) + (if Occurrences(mine, event) == 0 then [event] else [])))
      <==> Occurrences(mine, event) <= 1
  {
    hide Occurrences, OneEach, Replaced, SameTrack;
    PutKeepsOneEachIff(mine, event);
    if Occurrences(mine, event) != 0 {
      assert Replaced(mine, event) + [] == Replaced(mine, event);
    } else if |mine| == MAX_INFERENCE_ITEMS {
      OneEachInTail(Replaced(mine, event) + [event], MAX_INFERENCE_ITEMS);
    }
  }

  lemma OneEachInTail(events: seq<Payload>, n: nat)
    requires OneEach(events) && n <= |events|
    ensures OneEach(events[|events| - n..])
  {
  }

  lemma PutKeepsOneEachIff(mine: seq<Payload>, event: Payload)
    requires OneEach(mine)
    ensures |Replaced(mine, event)| == |mine|
    ensures Occurrences(mine, event) != 0 ==> (OneEach(Replaced(mine, event)) <==> Occurrences(mine, event) <= 1)
    ensures Occurrences(mine, event) == 0 ==> OneEach(Replaced(mine, event) + [event])
  {
    NoOccurrence(mine, event);
    TwoOccurrences(mine, event);
    hide Occurrences;
    var next := Replaced(mine, event);
    if Occurrences(mine, event) <= 1 {
      forall i, j | 0 <= i < j < |next| ensures !SameTrack(next[i], next[j]) {
      }
    } else {
      var i, j :| 0 <= i < j < |mine| && SameTrack(mine[i], event) && SameTrack(mine[j], event);
      assert next[i] == event && next[j] == event;
    }
  }

  lemma UpsertCanDuplicate()
    ensures var a := Payload("cam", "", "1", "p", 0, 0, None, 0);
            var b := Payload("cam", "", "2", "q", 0, 0, None, 1);
            var e := Payload("cam", "", "1", "q", 5, 5, None, 2);
            OneEach([a, b]) && Upsert([a, b], e, "cam") == [e, e]
  {
  }

  // ---------------------------------------------------------------- pruning and sweeping

  predicate About(t: Track, e: Payload) {
    t.trackId == e.localTrackId || (t.persistentId != "" && t.persistentId == e.persistentId)
  }

  /** `isInferenceAttachedToTracking`: a scan over the tracks. */
  predicate Attached(e: Payload, tracks: Option<seq<Track>>) {
    tracks.Some? && exists t :: t in tracks.value && About(t, e)
  }

  function InSets(localIds: set<string>, persistentIds: set<string>): Payload -> bool {
    (e: Payload) => e.localTrackId in localIds || e.persistentId in persistentIds
  }

  function LocalIds(tracks: seq<Track>): set<string> {
    set t | t in tracks :: t.trackId
  }

  function PersistentIds(tracks: seq<Track>): set<string> {
    set t | t in tracks && t.persistentId != "" :: t.persistentId
  }

  /** `pruneInferenceToTracking`: by two sets of ids. */
  function Prune(events: seq<Payload>, tracks: seq<Track>, camera: string): seq<Payload> {
    Filter(Filter(events, From(camera)), InSets(LocalIds(tracks), PersistentIds(tracks)))
  }

  /** An event of the camera that is attached, or younger than the cutoff where there is one. */
  function Current(camera: string, tracks: Option<seq<Track>>, cutoff: Option<int>): Payload -> bool {
    (e: Payload) => e.cameraId == camera && (Attached(e, tracks) || (cutoff.Some? && e.emittedAt > cutoff.value))
  }

  /** What `sweepStaleInference` leaves of a camera's events. */
  function Sweep(events: seq<Payload>, tracks: Option<seq<Track>>, camera: string, cutoff: int): seq<Payload> {
    Filter(events, Current(camera, tracks, Some(cutoff)))
  }

  /** The sets say what the scan says: pruning keeps exactly the camera's attached events, in order. */
  lemma PruneKeepsTheAttached(events: seq<Payload>, tracks: seq<Track>, camera: string)
    ensures Prune(events, tracks, camera) == Filter(events, Current(camera, Some(tracks), None))
  {
    var inSets := InSets(LocalIds(tracks), PersistentIds(tracks));
    forall e | e in events ensures Current(camera, Some(tracks), None)(e) <==> e.cameraId == camera && inSets(e) {
      SetsScan(e, tracks);
    }
    FilterTwice(events, From(camera), inSets, Current(camera, Some(tracks), None));
  }

  lemma SetsScan(e: Payload, tracks: seq<Track>)
    ensures Attached(e, Some(tracks)) <==> e.localTrackId in LocalIds(tracks) || e.persistentId in PersistentIds(tracks)
  {
  }

  /** The camera's events that are about one of the tracks, by local or by persistent id. */
  ghost function OnTracks(camera: string, tracks: seq<Track>): Payload -> bool {
    (e: Payload) =>
      && e.cameraId == camera
      && (exists t ::
            && t in tracks
            && (t.trackId == e.localTrackId || (t.persistentId != "" && t.persistentId == e.persistentId)))
  }

  lemma PruneKeepsExactly(events: seq<Payload>, tracks: seq<Track>, camera: string)
    ensures Prune(events, tracks, camera) == Filter(events, OnTracks(camera, tracks))
  {
    PruneKeepsTheAttached(events, tracks, camera);
    forall e | e in events ensures Current(camera, Some(tracks), None)(e) <==> OnTracks(camera, tracks)(e) {
      AttachedIsOnTracks(e, tracks, camera);
    }
    FilterAgrees(events, Current(camera, Some(tracks), None), OnTracks(camera, tracks));
  }

  lemma AttachedIsOnTracks(e: Payload, tracks: seq<Track>, camera: string)
    ensures OnTracks(camera, tracks)(e) <==> e.cameraId == camera && Attached(e, Some(tracks))
  {
    if Attached(e, Some(tracks)) {
      var t :| t in tracks && About(t, e);
    }
    if t :| t in tracks && (t.trackId == e.localTrackId || (t.persistentId != "" && t.persistentId == e.persistentId)) {
      assert About(t, e);
    }
  }

  /** And those that were emitted after the cutoff. */
  ghost function OnTracksOrYoung(camera: string, tracks: seq<Track>, cutoff: int): Payload -> bool {
    (e: Payload) => OnTracks(camera, tracks)(e) || (e.cameraId == camera && cutoff < e.emittedAt)
  }

  lemma SweepKeepsExactly(events: seq<Payload>, tracks: Option<seq<Track>>, camera: string, cutoff: int)
    ensures Sweep(events, tracks, camera, cutoff)
      == Filter(events, OnTracksOrYoung(camera, if tracks.Some? then tracks.value else [], cutoff))
  {
    var all := if tracks.Some? then tracks.value else [];
    forall e | e in events
      ensures Current(camera, tracks, Some(cutoff))(e) <==> OnTracksOrYoung(camera, all, cutoff)(e) {
      AttachedIsOnTracks(e, all, camera);
    }
    FilterAgrees(events, Current(camera, tracks, Some(cutoff)), OnTracksOrYoung(camera, all, cutoff));
  }

  /** So a sweep with the same tracks, whenever it comes, finds nothing to drop. */
  lemma SweepAfterPruneDropsNothing(events: seq<Payload>, tracks: seq<Track>, camera: string, cutoff: int)
    ensures Sweep(Prune(events, tracks, camera), Some(tracks), camera, cutoff) == Prune(events, tracks, camera)
  {
    PruneKeepsTheAttached(events, tracks, camera);
    FilterIsExact(events, Current(camera, Some(tracks), None));
    FilterIsExact(Prune(events, tracks, camera), Current(camera, Some(tracks), Some(cutoff)));
  }
}
