/** Which identity each local track is assigned, and the lifecycle events that tell of it. */
module IdentityService {
  import opened Collections

  type TrackKey = (string, string)

  /** Box and world position, which nothing here interprets. */
  datatype Place = Place(left: int, top: int, width: int, height: int, world: Option<(real, real)>)

  datatype Assignment = Assignment(persistentId: string, streamName: string, localTrackId: string, place: Place,
                                   lastSeen: int)

  type Table = map<TrackKey, Assignment>

  datatype EventType = Created | Updated | Merged | Expired

  datatype LifecycleEvent = LifecycleEvent(
    eventType: EventType,
    cameraId: string,
    streamName: string,
    localTrackId: string,
    persistentId: string,
    previousPersistentId: Option<string>,
    matchedExisting: bool,
    similarity: Option<real>,
    occurredAt: int,
    place: Place)

  datatype IdentityMatch = IdentityMatch(identityId: string, similarity: Option<real>, matchedExisting: bool)

  // ---------------------------------------------------------------- reading the events

  function KeyOf(e: LifecycleEvent): TrackKey {
    (e.cameraId, e.localTrackId)
  }

  function StateOf(e: LifecycleEvent): Assignment {
    Assignment(e.persistentId, e.streamName, e.localTrackId, e.place, e.occurredAt)
  }

  /** A consumer that trusts nothing: an event must fit the table it finds. */
  predicate Fits(table: Table, e: LifecycleEvent) {
    var key := KeyOf(e);
    match e.eventType
    case Created => key !in table && e.previousPersistentId.None? && !e.matchedExisting
    case Updated =>
      e.previousPersistentId.None?
        && (if key in table then table[key].persistentId == e.persistentId else e.matchedExisting)
    case Merged =>
      key in table && e.previousPersistentId == Some(table[key].persistentId)
        && table[key].persistentId != e.persistentId
    case Expired =>
      && key in table && e.previousPersistentId.None? && e.matchedExisting && e.similarity.None?
      && StateOf(e).(lastSeen := table[key].lastSeen) == table[key]
  }

  function Absorb(table: Table, e: LifecycleEvent): Table {
    if e.eventType.Expired? then table - {KeyOf(e)} else table[KeyOf(e) := StateOf(e)]
  }

  /** The table the events lead to, or nothing if some event does not fit. */
  function Replay(table: Table, events: seq<LifecycleEvent>): Option<Table> {
    if events == [] then Some(table)
    else
      var before := Replay(table, events[..|events| - 1]);
      var e := events[|events| - 1];
      if before.Some? && Fits(before.value, e) then Some(Absorb(before.value, e)) else None
  }

  lemma ReplayOne(table: Table, events: seq<LifecycleEvent>, e: LifecycleEvent)
    ensures Replay(table, events + [e]) ==
      var before := Replay(table, events);
      if before.Some? && Fits(before.value, e) then Some(Absorb(before.value, e)) else None
  {
    assert (events + [e])[..|events|] == events;
  }

  lemma {:induction false} ReplayConcat(table: Table, a: seq<LifecycleEvent>, b: seq<LifecycleEvent>)
    requires Replay(table, a).Some?
    ensures Replay(table, a + b) == Replay(Replay(table, a).value, b)
  {
    if b == [] {
      assert a + b == a;
    } else {
      ReplayConcat(table, a, b[..|b| - 1]);
      assert a + b == (a + b[..|b| - 1]) + [b[|b| - 1]];
      ReplayOne(table, a + b[..|b| - 1], b[|b| - 1]);
    }
  }

  // ---------------------------------------------------------------- what a log that replays tells

  /** The last event of a track. */
  function LastOf(log: seq<LifecycleEvent>, key: TrackKey): Option<LifecycleEvent> {
    if log == [] then None
    else if KeyOf(log[|log| - 1]) == key then Some(log[|log| - 1])
    else LastOf(log[..|log| - 1], key)
  }

  predicate Open(log: seq<LifecycleEvent>, key: TrackKey) {
    LastOf(log, key).Some? && !LastOf(log, key).value.eventType.Expired?
  }

  /** The table is the last event of every track that has not expired. */
  lemma {:induction false} TableIsTheLastEvents(log: seq<LifecycleEvent>, key: TrackKey)
    requires Replay(map[], log).Some?
    ensures var table := Replay(map[], log).value;
            && (key in table <==> Open(log, key))
            && (key in table ==> table[key] == StateOf(LastOf(log, key).value))
  {
    if log != [] {
      TableIsTheLastEvents(log[..|log| - 1], key);
    }
  }

  /** The kinds of a track's events, in order. */
  function Kinds(log: seq<LifecycleEvent>, key: TrackKey): seq<EventType> {
    if log == [] then []
    else
      Kinds(log[..|log| - 1], key)
      + (if KeyOf(log[|log| - 1]) == key then [log[|log| - 1].eventType] else [])
  }

  /** The pattern ((created | updated) (updated | merged)* expired)*, read from the front; the
      result says whether the last round is still open, and None that the pattern is broken. */
  function Pattern(kinds: seq<EventType>): Option<bool> {
    if kinds == [] then Some(false)
    else
      match (Pattern(kinds[..|kinds| - 1]), kinds[|kinds| - 1])
      case (Some(false), Created) => Some(true)
      case (Some(_), Updated) => Some(true)
      case (Some(true), Merged) => Some(true)
      case (Some(true), Expired) => Some(false)
      case _ => None
  }

  /** Every track's events follow the pattern, and its last round is open while it is assigned. */
  lemma {:induction false} EveryTrackFollowsThePattern(log: seq<LifecycleEvent>, key: TrackKey)
    requires Replay(map[], log).Some?
    ensures Pattern(Kinds(log, key)) == Some(key in Replay(map[], log).value)
  {
    if log != [] {
      var before, e := log[..|log| - 1], log[|log| - 1];
      EveryTrackFollowsThePattern(before, key);
      var kinds := Kinds(before, key);
      if KeyOf(e) == key {
        assert (kinds + [e.eventType])[..|kinds|] == kinds;
      } else {
        assert Kinds(log, key) == kinds;
      }
    }
  }

  lemma {:induction false} PrefixReplays(log: seq<LifecycleEvent>, i: nat)
    requires Replay(map[], log).Some? && i < |log|
    ensures Replay(map[], log[..i]).Some? && Fits(Replay(map[], log[..i]).value, log[i])
  {
    if i < |log| - 1 {
      PrefixReplays(log[..|log| - 1], i);
      assert log[..|log| - 1][..i] == log[..i];
    }
  }

  /** A merge names the identity the track had just before and a different new one; an expiry names
      the identity the track had. */
  lemma EventsNameTheCurrentIdentity(log: seq<LifecycleEvent>, i: nat)
    requires Replay(map[], log).Some? && i < |log|
    ensures var e, last := log[i], LastOf(log[..i], KeyOf(log[i]));
      && (e.eventType.Merged? ==>
           last.Some? && e.previousPersistentId == Some(last.value.persistentId)
             && e.persistentId != last.value.persistentId)
      && (e.eventType.Expired? ==> last.Some? && e.persistentId == last.value.persistentId)
      && (e.eventType.Merged? || e.eventType.Expired? ==> Open(log[..i], KeyOf(e)))
      && (e.eventType.Created? ==> !Open(log[..i], KeyOf(e)) && !e.matchedExisting)
  {
    PrefixReplays(log, i);
    TableIsTheLastEvents(log[..i], KeyOf(log[i]));
  }

  // ---------------------------------------------------------------- expiring

  function ExpiredEvent(key: TrackKey, state: Assignment, now: int): LifecycleEvent {
    LifecycleEvent(Expired, key.0, state.streamName, state.localTrackId, state.persistentId, None, true, None,
                   now, state.place)
  }

  function ExpiredEvents(table: Table, keys: seq<TrackKey>, now: int): seq<LifecycleEvent>
    requires forall key :: key in keys ==> key in table
  {
    seq(|keys|, i requires 0 <= i < |keys| => ExpiredEvent(keys[i], table[keys[i]], now))
  }

  /** Every entry carries its own track id. */
  ghost predicate Keyed(table: Table) {
    forall key :: key in table ==> table[key].localTrackId == key.1
  }

  lemma {:induction false} ReplayExpired(table: Table, keys: seq<TrackKey>, now: int)
    requires NoDuplicates(keys) && Keyed(table)
    requires forall key :: key in keys ==> key in table
    ensures Replay(table, ExpiredEvents(table, keys, now)) == Some(table - SetOf(keys))
  {
    hide Replay, Fits, Absorb, ExpiredEvent;
    if keys == [] {
      ReplayNothing(table);
      assert ExpiredEvents(table, keys, now) == [] && table - SetOf(keys) == table;
    } else {
      var before, key := keys[..|keys| - 1], keys[|keys| - 1];
      ReplayExpired(table, before, now);
      assert ExpiredEvents(table, keys, now)
        == ExpiredEvents(table, before, now) + [ExpiredEvent(key, table[key], now)];
      ReplayOne(table, ExpiredEvents(table, before, now), ExpiredEvent(key, table[key], now));
      ExpiryFits(table, SetOf(before), key, now);
      assert SetOf(keys) == SetOf(before) + {key};
    }
  }

  lemma ReplayNothing(table: Table)
    ensures Replay(table, []) == Some(table)
  {
  }

  lemma ExpiryFits(table: Table, gone: set<TrackKey>, key: TrackKey, now: int)
    requires Keyed(table) && key in table && key !in gone
    ensures Fits(table - gone, ExpiredEvent(key, table[key], now))
    ensures Absorb(table - gone, ExpiredEvent(key, table[key], now)) == table - (gone + {key})
  {
  }

  /** The event tells, now, of the end of this entry. */
  ghost predicate TellsOf(e: LifecycleEvent, state: Assignment, now: int) {
    && e.eventType.Expired? && e.occurredAt == now
    && e.persistentId == state.persistentId && e.previousPersistentId.None?
    && e.streamName == state.streamName && e.localTrackId == state.localTrackId && e.place == state.place
    && e.matchedExisting && e.similarity.None?
  }

  /** One event for each entry of a list, and none for any other. */
  ghost predicate Obituaries(events: seq<LifecycleEvent>, table: Table, gone: set<TrackKey>, now: int) {
    && |events| == |gone|
    && (forall e :: e in events ==> KeyOf(e) in gone && KeyOf(e) in table && TellsOf(e, table[KeyOf(e)], now))
    && (forall i, j :: 0 <= i < j < |events| ==> KeyOf(events[i]) != KeyOf(events[j]))
  }

  lemma ExpiredKeys(table: Table, keys: seq<TrackKey>, now: int)
    requires Keyed(table) && NoDuplicates(keys) && forall key :: key in keys ==> key in table
    ensures Obituaries(ExpiredEvents(table, keys, now), table, SetOf(keys), now)
  {
    NoDuplicatesSize(keys);
    var events := ExpiredEvents(table, keys, now);
    forall i | 0 <= i < |events| ensures KeyOf(events[i]) == keys[i] && TellsOf(events[i], table[keys[i]], now) {
      assert keys[i] in keys;
    }
  }

  // ---------------------------------------------------------------- the service

  datatype TrackIdentityState = Pending | Assigned | MergedState

  class TrackedObject {
    const cameraId: string
    const streamName: string
    const trackId: string
    const place: Place
    const embedded: bool
    var persistentId: Option<string>
    var persistentIdState: TrackIdentityState
    var similarity: Option<real>

    constructor (cameraId: string, streamName: string, trackId: string, place: Place, embedded: bool)
      ensures persistentId == None && persistentIdState == Pending && similarity == None
    {
      this.cameraId, this.streamName, this.trackId := cameraId, streamName, trackId;
      this.place, this.embedded := place, embedded;
      persistentId, persistentIdState, similarity := None, Pending, None;
    }

    ghost predicate Took(found: IdentityMatch, e: LifecycleEvent)
      reads this
    {
      && persistentId == Some(found.identityId) && similarity == found.similarity
      && persistentIdState == if e.eventType.Merged? then MergedState else Assigned
    }
  }

  /** The event a match of a track gives rise to, given the track's entry so far. */
  function MatchEvent(previous: Option<Assignment>, track: TrackedObject, found: IdentityMatch,
                      now: int): LifecycleEvent {
    LifecycleEvent(
      if previous.None? then if found.matchedExisting then Updated else Created
      else if previous.value.persistentId != found.identityId then Merged
      else Updated,
      track.cameraId, track.streamName, track.trackId, found.identityId,
      if previous.Some? && previous.value.persistentId != found.identityId then Some(previous.value.persistentId)
        else None,
      found.matchedExisting, found.similarity, now, track.place)
  }

  /** The table holds only fresh entries of that time limit. */
  ghost predicate Young(table: Table, now: int, ttl: int) {
    forall key :: key in table ==> now - table[key].lastSeen < ttl
  }

  /** The events tell of these matches of these tracks, pair by pair. */
  ghost predicate Reports(events: seq<LifecycleEvent>, tracks: seq<TrackedObject>, matches: seq<IdentityMatch>,
                          now: int) {
    && |events| <= |tracks| && |events| <= |matches|
    && (forall i :: 0 <= i < |events| ==>
         && KeyOf(events[i]) == (tracks[i].cameraId, tracks[i].trackId)
         && StateOf(events[i])
              == Assignment(matches[i].identityId, tracks[i].streamName, tracks[i].trackId, tracks[i].place, now)
         && events[i].matchedExisting == matches[i].matchedExisting && events[i].similarity == matches[i].similarity)
  }

  lemma ReportsOneMore(events: seq<LifecycleEvent>, tracks: seq<TrackedObject>, matches: seq<IdentityMatch>, now: int,
                       previous: Option<Assignment>)
    requires Reports(events, tracks, matches, now) && |events| < |tracks| && |events| < |matches|
    ensures Reports(events + [MatchEvent(previous, tracks[|events|], matches[|events|], now)], tracks, matches, now)
  {
  }

  /** The object of pair `i` does not come again before pair `n`. */
  ghost predicate LastTime(tracks: seq<TrackedObject>, i: nat, n: nat)
    requires i < n <= |tracks|
  {
    forall j :: i < j < n ==> tracks[j] != tracks[i]
  }

  lemma LastTimeBefore(tracks: seq<TrackedObject>, i: nat, n: nat)
    requires i < n < |tracks| && LastTime(tracks, i, n + 1)
    ensures LastTime(tracks, i, n) && tracks[i] != tracks[n]
  {
  }

  /** Each track object is as its last pair left it. */
  ghost predicate AllTook(tracks: seq<TrackedObject>, matches: seq<IdentityMatch>, events: seq<LifecycleEvent>)
    requires |events| <= |tracks| && |events| <= |matches|
    reads tracks
  {
    forall i :: 0 <= i < |events| && LastTime(tracks, i, |events|) ==> tracks[i].Took(matches[i], events[i])
  }

  function Embedded(): TrackedObject -> bool {
    (t: TrackedObject) => t.embedded
  }

  function WithEmbedding(tracks: seq<TrackedObject>): seq<TrackedObject> {
    Filter(tracks, Embedded())
  }

  class IdentityAssignmentService {
    const ttl: int
    var trackAssignments: Table
    /** Every event returned so far. */
    ghost var log: seq<LifecycleEvent>

    /** The events rebuild the table. */
    ghost predicate Valid()
      reads this
    {
      Replay(map[], log) == Some(trackAssignments) && Keyed(trackAssignments)
    }

    constructor (ttl: int)
      ensures Valid() && log == [] && trackAssignments == map[] && this.ttl == ttl
    {
      this.ttl := ttl;
      trackAssignments, log := map[], [];
    }

    method ApplyMatch(track: TrackedObject, found: IdentityMatch, now: int) returns (event: LifecycleEvent)
      requires Valid()
      modifies this, track
      ensures Valid() && log == old(log) + [event]
      ensures event == MatchEvent(Lookup(old(trackAssignments), (track.cameraId, track.trackId)), track, found, now)
      ensures trackAssignments == old(trackAssignments)[(track.cameraId, track.trackId) := StateOf(event)]
      ensures track.Took(found, event)
    {
      hide Replay;
      var key := (track.cameraId, track.trackId);
      var previous := Lookup(trackAssignments, key);
      track.persistentId, track.similarity := Some(found.identityId), found.similarity;
      var eventType, previousPersistentId;
      if previous.None? {
        track.persistentIdState := Assigned;
        eventType := if !found.matchedExisting then Created else Updated;
        previousPersistentId := None;
      } else if previous.value.persistentId != found.identityId {
        track.persistentIdState := MergedState;
        eventType := Merged;
        previousPersistentId := Some(previous.value.persistentId);
      } else {
        track.persistentIdState := Assigned;
        eventType := Updated;
        previousPersistentId := None;
      }
      event := LifecycleEvent(eventType, track.cameraId, track.streamName, track.trackId, found.identityId,
                              previousPersistentId, found.matchedExisting, found.similarity, now, track.place);
      trackAssignments := trackAssignments[key :=
        Assignment(found.identityId, track.streamName, track.trackId, track.place, now)];
      ReplayOne(map[], log, event);
      log := log + [event];
    }

    /** `_apply_matches`: tracks and matches in pairs, as far as both go; every pair gives one event,
        and a track object keeps what its last pair gave it. */
    method ApplyMatches(tracks: seq<TrackedObject>, matches: seq<IdentityMatch>, now: int)
      returns (events: seq<LifecycleEvent>)
      requires Valid()
      modifies this, tracks
      ensures Valid() && log == old(log) + events
      ensures |events| == (if |tracks| <= |matches| then |tracks| else |matches|)
      ensures Reports(events, tracks, matches, now)
      ensures AllTook(tracks, matches, events)
    {
      hide IdentityAssignmentService.Valid, Reports, MatchEvent, LastTime, TrackedObject.Took;
      events := [];
      NothingReported(tracks, matches, now);
      var n := if |tracks| <= |matches| then |tracks| else |matches|;
      while |events| < n
        invariant |events| <= n
        invariant Valid() && log == old(log) + events
        invariant Reports(events, tracks, matches, now)
        invariant AllTook(tracks, matches, events)
      {
        var k := |events|;
        ghost var previous := Lookup(trackAssignments, (tracks[k].cameraId, tracks[k].trackId));
        var event := ApplyMatch(tracks[k], matches[k], now);
        ReportsOneMore(events, tracks, matches, now, previous);
        events := events + [event];
        forall i | 0 <= i < |events| && LastTime(tracks, i, |events|) ensures tracks[i].Took(matches[i], events[i]) {
          if i < k {
            LastTimeBefore(tracks, i, k);
          }
        }
      }
    }

    /** Remove some entries and tell of each. */
    method Expire(keys: seq<TrackKey>, now: int) returns (events: seq<LifecycleEvent>)
      requires Valid() && NoDuplicates(keys) && forall key :: key in keys ==> key in trackAssignments
      modifies this
      ensures Valid() && log == old(log) + events
      ensures trackAssignments == old(trackAssignments) - SetOf(keys)
      ensures Obituaries(events, old(trackAssignments), SetOf(keys), now)
    {
      events := [];
      var i := 0;
      while i < |keys|
        invariant 0 <= i <= |keys| && log == old(log)
        invariant trackAssignments == old(trackAssignments) - SetOf(keys[..i])
        invariant events == ExpiredEvents(old(trackAssignments), keys[..i], now)
      {
        assert keys[..i + 1] == keys[..i] + [keys[i]];
        assert keys[i] !in keys[..i];
        events := events + [ExpiredEvent(keys[i], trackAssignments[keys[i]], now)];
        trackAssignments := trackAssignments - {keys[i]};
        i := i + 1;
      }
      assert keys[..i] == keys;
      ReplayExpired(old(trackAssignments), keys, now);
      ReplayConcat(map[], log, events);
      ExpiredKeys(old(trackAssignments), keys, now);
      log := log + events;
    }

    /** The table's keys that satisfy a test, in some order. */
    method KeysOf(wanted: set<TrackKey>) returns (keys: seq<TrackKey>)
      ensures NoDuplicates(keys) && SetOf(keys) == wanted && |keys| == |wanted|
      ensures forall key :: key in keys <==> key in wanted
    {
      keys := [];
      var todo := wanted;
      while todo != {}
        invariant todo <= wanted && NoDuplicates(keys)
        invariant forall key :: key in keys <==> key in wanted && key !in todo
        decreases todo
      {
        var key :| key in todo;
        keys := keys + [key];
        todo := todo - {key};
      }
      assert SetOf(keys) == wanted;
      NoDuplicatesSize(keys);
    }

    /** `expire_stale`: exactly the entries that reached the time limit go, one event each. */
    method ExpireStale(now: int) returns (events: seq<LifecycleEvent>)
      requires Valid()
      modifies this
      ensures Valid() && log == old(log) + events
      ensures Young(trackAssignments, now, ttl)
      ensures forall key :: key in trackAssignments <==>
        key in old(trackAssignments) && now - old(trackAssignments)[key].lastSeen < ttl
      ensures forall key :: key in trackAssignments ==> trackAssignments[key] == old(trackAssignments)[key]
      ensures Obituaries(events, old(trackAssignments), old(trackAssignments).Keys - trackAssignments.Keys, now)
    {
      hide IdentityAssignmentService.Valid, Obituaries;
      var stale := set key | key in trackAssignments && !(now - trackAssignments[key].lastSeen < ttl);
      var keys := KeysOf(stale);
      events := Expire(keys, now);
      assert old(trackAssignments).Keys - trackAssignments.Keys == stale;
    }

    /** `remove_camera`: exactly the camera's entries go, one event each. */
    method RemoveCamera(camera: string, now: int) returns (events: seq<LifecycleEvent>)
      requires Valid()
      modifies this
      ensures Valid() && log == old(log) + events
      ensures trackAssignments ==
        map key | key in old(trackAssignments) && key.0 != camera :: old(trackAssignments)[key]
      ensures Obituaries(events, old(trackAssignments), old(trackAssignments).Keys - trackAssignments.Keys, now)
      ensures forall e :: e in events ==> e.cameraId == camera
    {
      hide Valid, ExpiredEvents, NoDuplicates, SetOf, TellsOf;
      var gone := set key | key in trackAssignments && key.0 == camera;
      var keys := KeysOf(gone);
      events := Expire(keys, now);
      assert old(trackAssignments).Keys - trackAssignments.Keys == gone;
    }

    /** The loop of `assign` that gathers the tracks with an embedding. */
    method Indexed(tracks: seq<TrackedObject>) returns (indexed: seq<TrackedObject>)
      ensures indexed == WithEmbedding(tracks)
    {
      indexed := [];
      var i := 0;
      while i < |tracks|
        invariant 0 <= i <= |tracks|
        invariant indexed + WithEmbedding(tracks[i..]) == WithEmbedding(tracks)
      {
        if tracks[i].embedded {
          indexed := indexed + [tracks[i]];
        }
        i := i + 1;
      }
    }

    /** `assign` around the store: `matches` is what the store answered, one per request, and the
        two times are the clock when they are applied and when stale entries are looked for. */
    method Assign(tracks: seq<TrackedObject>, matches: seq<IdentityMatch>, now: int, later: int)
      returns (events: seq<LifecycleEvent>)
      requires Valid() && |matches| == |WithEmbedding(tracks)|
      modifies this, tracks
      ensures Valid() && log == old(log) + events
      ensures forall key :: key in trackAssignments ==> later - trackAssignments[key].lastSeen < ttl
      ensures forall t :: t in WithEmbedding(tracks) <==> t in tracks && t.embedded
      ensures |WithEmbedding(tracks)| <= |events|
      ensures Reports(events[..|WithEmbedding(tracks)|], WithEmbedding(tracks), matches, now)
      ensures forall e :: e in events[|WithEmbedding(tracks)|..] ==> e.eventType.Expired? && e.occurredAt == later
    {
      hide Valid, Reports;
      var indexed := Indexed(tracks);
      FilterIsExact(tracks, Embedded());
      events := [];
      assert forall i :: 0 <= i < |indexed| ==> indexed[i] in tracks;
      if indexed != [] {
        events := ApplyMatches(indexed, matches, now);
      } else {
        NothingReported(indexed, matches, now);
      }
      var expired := ExpireStale(later);
      Reassociate(old(log), events, expired);
      assert (events + expired)[..|indexed|] == events;
      assert (events + expired)[|indexed|..] == expired;
      events := events + expired;
    }
  }

  lemma NothingReported(tracks: seq<TrackedObject>, matches: seq<IdentityMatch>, now: int)
    ensures Reports([], tracks, matches, now)
  {
  }
}
