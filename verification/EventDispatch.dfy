/** How a processed bundle hands its identity events to the dispatcher. */
module EventDispatch {
  import opened Collections
  import opened IdentityService

  type EventKey = (string, string, EventType, int)

  function KeyOfEvent(e: LifecycleEvent): EventKey {
    (e.cameraId, e.localTrackId, e.eventType, e.occurredAt)
  }

  function From(camera: string): LifecycleEvent -> bool {
    (e: LifecycleEvent) => e.cameraId == camera
  }

  /** Keys of the events of the cameras in the bundle. */
  function PublishedKeys(events: seq<LifecycleEvent>, cameras: seq<string>): set<EventKey> {
    set e | e in events && e.cameraId in cameras :: KeyOfEvent(e)
  }

  function Unpublished(keys: set<EventKey>): LifecycleEvent -> bool {
    (e: LifecycleEvent) => KeyOfEvent(e) !in keys
  }

  function Times(cameras: seq<string>, camera: string): nat {
    multiset(cameras)[camera]
  }

  /** How often an event is in the lists. */
  function CountAll(lists: seq<seq<LifecycleEvent>>, e: LifecycleEvent): nat {
    if lists == [] then 0 else CountAll(lists[..|lists| - 1], e) + multiset(lists[|lists| - 1])[e]
  }

  /** `published` holds the list of each frame that made it to an output, `remaining` the rest.
      Outputs are zipped from the prepared frames and the detector's batches, so only the first
      `outputs` frames have one. */
  method Split(events: seq<LifecycleEvent>, prepared: seq<string>, outputs: nat)
    returns (published: seq<seq<LifecycleEvent>>, remaining: seq<LifecycleEvent>)
    requires outputs <= |prepared|
    ensures published == Lists(events, prepared[..outputs])
    ensures remaining == Filter(events, Unpublished(PublishedKeys(events, prepared)))
  {
    published := [];
    var i := 0;
    while i < outputs
      invariant 0 <= i <= outputs
      invariant published == Lists(events, prepared[..i])
    {
      assert prepared[..i + 1][..i] == prepared[..i];
      published := published + [Filter(events, From(prepared[i]))];
      i := i + 1;
    }
    remaining := Filter(events, Unpublished(PublishedKeys(events, prepared)));
  }

  function Lists(events: seq<LifecycleEvent>, cameras: seq<string>): seq<seq<LifecycleEvent>> {
    seq(|cameras|, i requires 0 <= i < |cameras| => Filter(events, From(cameras[i])))
  }

  lemma {:induction false} CountLists(events: seq<LifecycleEvent>, cameras: seq<string>, e: LifecycleEvent)
    ensures CountAll(Lists(events, cameras), e) == Times(cameras, e.cameraId) * multiset(events)[e]
  {
    hide CountAll, Lists, Filter, Times;
    if cameras == [] {
      CountNothing(events, e);
    } else {
      var before, last := cameras[..|cameras| - 1], cameras[|cameras| - 1];
      assert cameras == before + [last];
      CountLists(events, before, e);
      CountOneMore(events, before, last, e);
    }
  }

  lemma CountNothing(events: seq<LifecycleEvent>, e: LifecycleEvent)
    ensures CountAll(Lists(events, []), e) == Times([], e.cameraId) * multiset(events)[e]
  {
  }

  lemma CountOneMore(events: seq<LifecycleEvent>, cameras: seq<string>, camera: string, e: LifecycleEvent)
    requires CountAll(Lists(events, cameras), e) == Times(cameras, e.cameraId) * multiset(events)[e]
    ensures CountAll(Lists(events, cameras + [camera]), e)
      == Times(cameras + [camera], e.cameraId) * multiset(events)[e]
  {
    hide Times, Filter, CountAll, Lists;
    FilterCount(events, From(camera), e);
    ListsGrow(events, cameras, camera, e);
    TimesGrow(cameras, camera, e.cameraId);
    OneMore(Times(cameras, e.cameraId), if camera == e.cameraId then 1 else 0, multiset(events)[e]);
  }

  lemma ListsGrow(events: seq<LifecycleEvent>, cameras: seq<string>, camera: string, e: LifecycleEvent)
    ensures CountAll(Lists(events, cameras + [camera]), e)
      == CountAll(Lists(events, cameras), e) + multiset(Filter(events, From(camera)))[e]
  {
    hide Filter;
    var before, all := Lists(events, cameras), Lists(events, cameras + [camera]);
    assert all[..|cameras|] == before && all[|cameras|] == Filter(events, From(camera));
  }

  lemma TimesGrow(cameras: seq<string>, camera: string, c: string)
    ensures Times(cameras + [camera], c) == Times(cameras, c) + if camera == c then 1 else 0
  {
  }

  lemma OneMore(times: nat, more: nat, count: nat)
    requires more <= 1
    ensures (times + more) * count == times * count + if more == 1 then count else 0
  {
  }

  /** How often an event is in the published lists and the remaining one together. */
  function Handed(events: seq<LifecycleEvent>, prepared: seq<string>, outputs: nat, e: LifecycleEvent): nat
    requires outputs <= |prepared|
  {
    CountAll(Lists(events, prepared[..outputs]), e)
      + multiset(Filter(events, Unpublished(PublishedKeys(events, prepared))))[e]
  }

  /** How often an event of the list is handed over in all: once if its camera is not in the
      bundle, and otherwise once for every output of its camera. */
  lemma HandedOver(events: seq<LifecycleEvent>, prepared: seq<string>, outputs: nat, e: LifecycleEvent)
    requires outputs <= |prepared|
    ensures Handed(events, prepared, outputs, e)
      == (if e.cameraId in prepared then Times(prepared[..outputs], e.cameraId) else 1) * multiset(events)[e]
  {
    hide CountAll, Lists, Filter, Times, PublishedKeys;
    CountLists(events, prepared[..outputs], e);
    FilterCount(events, Unpublished(PublishedKeys(events, prepared)), e);
    if e in events {
      PublishedIff(events, prepared, e);
    }
    if e.cameraId !in prepared {
      NoneThere(prepared[..outputs], e.cameraId);
    }
  }

  lemma PublishedIff(events: seq<LifecycleEvent>, cameras: seq<string>, e: LifecycleEvent)
    requires e in events
    ensures KeyOfEvent(e) in PublishedKeys(events, cameras) <==> e.cameraId in cameras
  {
  }

  lemma NoneThere(cameras: seq<string>, camera: string)
    requires camera !in cameras
    ensures Times(cameras, camera) == 0
  {
  }

  ghost predicate ExactlyOnce(events: seq<LifecycleEvent>, prepared: seq<string>, outputs: nat)
    requires outputs <= |prepared|
  {
    forall e :: Handed(events, prepared, outputs, e) == multiset(events)[e]
  }

  /** Every event is handed over exactly once, just when every camera of the bundle that has events
      has exactly one output. */
  lemma ExactlyOnceIff(events: seq<LifecycleEvent>, prepared: seq<string>, outputs: nat)
    requires outputs <= |prepared|
    ensures ExactlyOnce(events, prepared, outputs)
      <==> forall e :: e in events && e.cameraId in prepared ==> Times(prepared[..outputs], e.cameraId) == 1
  {
    forall e ensures Handed(events, prepared, outputs, e) == multiset(events)[e]
      <==> (e in events && e.cameraId in prepared ==> Times(prepared[..outputs], e.cameraId) == 1) {
      HandedOver(events, prepared, outputs, e);
      OneFactor(if e.cameraId in prepared then Times(prepared[..outputs], e.cameraId) else 1, multiset(events)[e]);
    }
  }

  /** The case in small: one frame, its expiry event, and a detector that returned no batch for it.
      The event counts as published and is in no list. */
  lemma ShortDetectionLosesTheEvent()
    ensures var place := Place(0, 0, 0, 0, None);
            var e := LifecycleEvent(Expired, "cam", "stream", "1", "person", None, true, None, 0, place);
            Handed([e], ["cam"], 0, e) == 0 && !ExactlyOnce([e], ["cam"], 0)
  {
    var e := LifecycleEvent(Expired, "cam", "stream", "1", "person", None, true, None, 0, Place(0, 0, 0, 0, None));
    HandedOver([e], ["cam"], 0, e);
    assert multiset([e])[e] == 1;
  }

  lemma OneFactor(k: nat, n: nat)
    ensures k * n == n <==> n == 0 || k == 1
  {
  }

  /** A bundle's cameras are distinct; with an output for every frame that is enough. */
  lemma DistinctCamerasAreEnough(events: seq<LifecycleEvent>, prepared: seq<string>)
    requires NoDuplicates(prepared)
    ensures ExactlyOnce(events, prepared, |prepared|)
  {
    assert prepared[..|prepared|] == prepared;
    forall c | c in prepared ensures Times(prepared, c) == 1 {
      CountDistinct(prepared, c);
    }
    ExactlyOnceIff(events, prepared, |prepared|);
  }

  lemma {:induction false} CountDistinct(cameras: seq<string>, c: string)
    requires NoDuplicates(cameras)
    ensures Times(cameras, c) == if c in cameras then 1 else 0
  {
    if cameras != [] {
      CountDistinct(cameras[1..], c);
      assert cameras == [cameras[0]] + cameras[1..];
    }
  }
}
