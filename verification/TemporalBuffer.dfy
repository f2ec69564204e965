/** The rolling window of crops kept per persistent identity. Times are in microseconds. */
module TemporalBuffer {
  import opened Collections

  /** One track crop; `crop` stands for the pixels, which nothing here interprets. */
  datatype Sample = Sample(
    persistentId: string,
    state: string,
    sampledAt: int,
    consecutiveHits: int,
    framesSinceUpdate: int,
    width: int,
    height: int,
    crop: nat)

  datatype Event = Push(sample: Sample) | Reset(id: string) | Evict(now: int, cutoff: int)

  const PENDING := "pending"

  // ---------------------------------------------------------------- what a history means

  /** When the identity was last pushed, unless it was reset or evicted since. */
  function LastSeen(h: seq<Event>, id: string): Option<int> {
    if h == [] then None
    else
      var before := LastSeen(h[..|h| - 1], id);
      match h[|h| - 1]
      case Push(s) => if s.persistentId == id then Some(s.sampledAt) else before
      case Reset(other) => if other == id then None else before
      case Evict(now, cutoff) => if before.Some? && now - before.value > cutoff then None else before
  }

  /** The event leaves nothing of what was kept for the identity so far. */
  predicate Breaks(h: seq<Event>, e: Event, id: string, gap: int) {
    var seen := LastSeen(h, id);
    match e
    case Push(s) => s.persistentId == id && seen.Some? && (s.sampledAt - seen.value > gap || s.state == PENDING)
    case Reset(other) => other == id
    case Evict(now, cutoff) => seen.Some? && now - seen.value > cutoff
  }

  /** All samples of an identity, oldest first. */
  function Pushes(h: seq<Event>, id: string): seq<Sample> {
    if h == [] then []
    else
      var last := h[|h| - 1];
      Pushes(h[..|h| - 1], id) + (if last.Push? && last.sample.persistentId == id then [last.sample] else [])
  }

  /** The index of the last event that breaks, or 0. */
  function LastBreak(h: seq<Event>, id: string, gap: int): nat
    ensures LastBreak(h, id, gap) <= |h|
  {
    if h == [] then 0
    else if Breaks(h[..|h| - 1], h[|h| - 1], id, gap) then |h| - 1
    else LastBreak(h[..|h| - 1], id, gap)
  }

  /** The samples of an identity from the last event that broke its sequence on. */
  function Since(h: seq<Event>, id: string, gap: int): seq<Sample> {
    Pushes(h[LastBreak(h, id, gap)..], id)
  }

  function LastN<T>(s: seq<T>, n: nat): (last: seq<T>)
    ensures |last| == Min(n, |s|) && last == s[|s| - |last|..]
  {
    if |s| <= n then s else s[|s| - n..]
  }

  /** How one more event changes the samples since the break. */
  lemma SinceAfter(h: seq<Event>, e: Event, id: string, gap: int)
    ensures LastSeen(h + [e], id) == match e
      case Push(s) => if s.persistentId == id then Some(s.sampledAt) else LastSeen(h, id)
      case Reset(other) => if other == id then None else LastSeen(h, id)
      case Evict(now, cutoff) =>
        if LastSeen(h, id).Some? && now - LastSeen(h, id).value > cutoff then None else LastSeen(h, id)
    ensures Since(h + [e], id, gap) ==
      (if Breaks(h, e, id, gap) then [] else Since(h, id, gap))
      + (if e.Push? && e.sample.persistentId == id then [e.sample] else [])
  {
    var all := h + [e];
    assert all[..|h|] == h;
    var k := LastBreak(all, id, gap);
    var tail := all[k..];
    assert tail[..|tail| - 1] == h[k..];
    assert tail[|tail| - 1] == e;
    assert Breaks(h, e, id, gap) ==> h[k..] == [];
    assert Since(all, id, gap)
      == Pushes(h[k..], id) + (if e.Push? && e.sample.persistentId == id then [e.sample] else []);
  }

  lemma LastNAfter<T>(s: seq<T>, n: nat, x: T)
    ensures LastN(s + [x], n) == LastN(LastN(s, n) + [x], n)
  {
  }

  /** What holds of the samples since the break: they are the identity's own, neighbours are at
      most the gap apart, only the first can be pending, and the last is the one last seen. */
  ghost predicate Coherent(samples: seq<Sample>, id: string, gap: int) {
    && (forall i :: 0 <= i < |samples| ==> samples[i].persistentId == id)
    && (forall i :: 0 < i < |samples| ==> samples[i].sampledAt - samples[i - 1].sampledAt <= gap)
    && (forall i :: 0 < i < |samples| ==> samples[i].state != PENDING)
  }

  /** Nothing seen, nothing kept; otherwise the last kept is the one last seen. */
  ghost predicate EndsWith(samples: seq<Sample>, seen: Option<int>) {
    if samples == [] then seen.None? else seen == Some(samples[|samples| - 1].sampledAt)
  }

  lemma CoherentAfter(samples: seq<Sample>, s: Sample, id: string, gap: int)
    requires Coherent(samples, id, gap) && s.persistentId == id
    requires samples != [] ==> s.sampledAt - samples[|samples| - 1].sampledAt <= gap && s.state != PENDING
    ensures Coherent(samples + [s], id, gap)
  {
  }

  lemma {:induction false} SinceIsCoherent(h: seq<Event>, id: string, gap: int)
    ensures Coherent(Since(h, id, gap), id, gap) && EndsWith(Since(h, id, gap), LastSeen(h, id))
  {
    hide Since, Coherent;
    if h == [] {
      SinceNothing(id, gap);
    } else {
      var before, e := h[..|h| - 1], h[|h| - 1];
      SinceIsCoherent(before, id, gap);
      assert before + [e] == h;
      SinceAfter(before, e, id, gap);
      var kept := if Breaks(before, e, id, gap) then [] else Since(before, id, gap);
      if e.Push? && e.sample.persistentId == id {
        NothingIsCoherent(id, gap);
        CoherentAfter(kept, e.sample, id, gap);
      } else {
        NothingIsCoherent(id, gap);
        assert kept + [] == kept;
      }
    }
  }

  lemma NothingIsCoherent(id: string, gap: int)
    ensures Coherent([], id, gap)
  {
  }

  lemma SinceNothing(id: string, gap: int)
    ensures Since([], id, gap) == [] && Coherent([], id, gap)
  {
  }

  /** The samples since the break, from those before the event alone: a push of the identity joins
      them if it comes within the gap of the last one and is not pending, and starts anew if not;
      a reset ends them, and so does an eviction that finds the last one too old. */
  lemma SinceFollows(h: seq<Event>, e: Event, id: string, gap: int)
    ensures var before, after := Since(h, id, gap), Since(h + [e], id, gap);
            match e
            case Push(s) =>
              if s.persistentId != id then after == before
              else if before != [] && s.sampledAt - before[|before| - 1].sampledAt <= gap && s.state != "pending"
              then after == before + [s]
              else after == [s]
            case Reset(other) => after == if other == id then [] else before
            case Evict(now, cutoff) =>
              after == if before != [] && now - before[|before| - 1].sampledAt > cutoff then [] else before
    ensures Since([], id, gap) == []
  {
    SinceAfter(h, e, id, gap);
    SinceIsCoherent(h, id, gap);
    hide Since, Coherent, LastSeen;
    SinceNothing(id, gap);
    var before := Since(h, id, gap);
    assert before + [] == before;
    if e.Push? {
      assert [] + [e.sample] == [e.sample];
    }
  }

  /** A window of a coherent sequence is coherent, so it too can be pending at its start only. */
  lemma WindowIsCoherent(h: seq<Event>, id: string, gap: int, window: nat)
    ensures Coherent(LastN(Since(h, id, gap), window), id, gap)
  {
    SinceIsCoherent(h, id, gap);
    hide Since;
  }

  /** What is stored for an identity is what the history says. */
  ghost predicate Tracks(buffer: Option<seq<Sample>>, seen: Option<int>, h: seq<Event>, id: string, gap: int,
                         window: nat) {
    && seen == LastSeen(h, id)
    && (match buffer
        case Some(samples) => samples == LastN(Since(h, id, gap), window)
        case None => Since(h, id, gap) == [])
  }

  /** An event that keeps what there is of an identity, and one that leaves nothing. */
  lemma TracksKept(buffer: Option<seq<Sample>>, seen: Option<int>, h: seq<Event>, e: Event, id: string, gap: int,
                   window: nat)
    requires Tracks(buffer, seen, h, id, gap, window)
    requires !(e.Push? && e.sample.persistentId == id) && !Breaks(h, e, id, gap)
    ensures Tracks(buffer, seen, h + [e], id, gap, window)
  {
    SinceAfter(h, e, id, gap);
  }

  lemma TracksNothing(h: seq<Event>, e: Event, id: string, gap: int, window: nat)
    requires !e.Push? && Breaks(h, e, id, gap)
    ensures Tracks(None, None, h + [e], id, gap, window)
  {
    SinceAfter(h, e, id, gap);
  }

  lemma TracksPush(buffer: Option<seq<Sample>>, seen: Option<int>, h: seq<Event>, s: Sample, gap: int, window: nat)
    requires Tracks(buffer, seen, h, s.persistentId, gap, window)
    ensures var broken := seen.Some? && (s.sampledAt - seen.value > gap || s.state == PENDING);
            var kept := if broken || buffer.None? then [] else buffer.value;
            Tracks(Some(LastN(kept + [s], window)), Some(s.sampledAt), h + [Push(s)], s.persistentId, gap, window)
  {
    var id := s.persistentId;
    SinceAfter(h, Push(s), id, gap);
    LastNAfter(if Breaks(h, Push(s), id, gap) then [] else Since(h, id, gap), window, s);
  }

  // ---------------------------------------------------------------- the service

  class TemporalBufferService {
    const windowSize: nat
    const gapReset: int
    var buffers: map<string, seq<Sample>>
    var lastSeen: map<string, int>
    ghost var history: seq<Event>

    /** Every buffer is the last `windowSize` samples since the identity's last break. */
    ghost predicate Valid()
      reads this
    {
      forall id :: Tracks(Lookup(buffers, id), Lookup(lastSeen, id), history, id, gapReset, windowSize)
    }

    constructor (windowSize: nat, gapReset: int)
      ensures Valid() && history == [] && this.windowSize == windowSize && this.gapReset == gapReset
    {
      this.windowSize, this.gapReset := windowSize, gapReset;
      buffers, lastSeen, history := map[], map[], [];
    }

    method PushSample(sample: Sample)
      requires Valid()
      modifies this
      ensures Valid() && history == old(history) + [Push(sample)]
    {
      hide Tracks;
      var id, now := sample.persistentId, sample.sampledAt;
      TracksPush(Lookup(buffers, id), Lookup(lastSeen, id), history, sample, gapReset, windowSize);
      if id in lastSeen {
        var gap := now - lastSeen[id];
        if gap > gapReset || sample.state == PENDING {
          buffers := buffers - {id};
        }
      }
      if id !in buffers {
        buffers := buffers[id := []];
      }
      buffers := buffers[id := LastN(buffers[id] + [sample], windowSize)];
      lastSeen := lastSeen[id := now];
      history := history + [Push(sample)];
      forall other
        ensures Tracks(Lookup(buffers, other), Lookup(lastSeen, other), history, other, gapReset, windowSize) {
        if other != id {
          assert old(Tracks(Lookup(buffers, other), Lookup(lastSeen, other), history, other, gapReset, windowSize));
          TracksKept(Lookup(buffers, other), Lookup(lastSeen, other), old(history), Push(sample), other, gapReset,
            windowSize);
        }
      }
    }

    method Get(id: string) returns (samples: seq<Sample>)
      requires Valid()
      ensures samples == LastN(Since(history, id, gapReset), windowSize)
      ensures var all := Since(history, id, gapReset);
              |samples| == Min(windowSize, |all|) && samples == all[|all| - |samples|..]
      ensures Coherent(samples, id, gapReset)
    {
      WindowIsCoherent(history, id, gapReset, windowSize);
      assert Tracks(Lookup(buffers, id), Lookup(lastSeen, id), history, id, gapReset, windowSize);
      samples := if id in buffers then buffers[id] else [];
    }

    method Depth(id: string) returns (depth: nat)
      requires Valid()
      ensures depth == |LastN(Since(history, id, gapReset), windowSize)|
      ensures depth == Min(windowSize, |Since(history, id, gapReset)|)
    {
      assert Tracks(Lookup(buffers, id), Lookup(lastSeen, id), history, id, gapReset, windowSize);
      depth := if id in buffers then |buffers[id]| else 0;
    }

    method ResetId(id: string)
      requires Valid()
      modifies this
      ensures Valid() && history == old(history) + [Reset(id)]
    {
      hide Tracks;
      Drops(Reset(id), {id});
      buffers, lastSeen := buffers - {id}, lastSeen - {id};
      history := history + [Reset(id)];
    }

    /** Forgetting exactly the identities an event leaves nothing of keeps the service in step. */
    lemma Drops(e: Event, gone: set<string>)
      requires Valid() && !e.Push?
      requires forall id :: id in gone <==> Breaks(history, e, id, gapReset)
      ensures forall id ::
        Tracks(Lookup(buffers - gone, id), Lookup(lastSeen - gone, id), history + [e], id, gapReset, windowSize)
    {
      hide Tracks;
      forall id
        ensures Tracks(Lookup(buffers - gone, id), Lookup(lastSeen - gone, id), history + [e], id, gapReset,
          windowSize) {
        if id in gone {
          TracksNothing(history, e, id, gapReset, windowSize);
        } else {
          TracksKept(Lookup(buffers, id), Lookup(lastSeen, id), history, e, id, gapReset, windowSize);
        }
      }
    }

    lemma SeenIsLastSeen(id: string)
      requires Valid()
      ensures Lookup(lastSeen, id) == LastSeen(history, id)
    {
      assert Tracks(Lookup(buffers, id), Lookup(lastSeen, id), history, id, gapReset, windowSize);
    }

    /** `evict_stale` with the clock passed in. */
    method EvictStale(now: int, cutoff: int)
      requires Valid()
      modifies this
      ensures Valid() && history == old(history) + [Evict(now, cutoff)]
    {
      hide Tracks, LastSeen;
      var stale := set id | id in lastSeen && now - lastSeen[id] > cutoff;
      forall id ensures id in stale <==> Breaks(history, Evict(now, cutoff), id, gapReset) {
        SeenIsLastSeen(id);
      }
      Drops(Evict(now, cutoff), stale);
      Forget(stale);
      history := history + [Evict(now, cutoff)];
    }

    method Forget(ids: set<string>)
      modifies this`buffers, this`lastSeen
      ensures buffers == old(buffers) - ids && lastSeen == old(lastSeen) - ids
    {
      var todo := ids;
      while todo != {}
        invariant todo <= ids
        invariant lastSeen == old(lastSeen) - (ids - todo)
        invariant buffers == old(buffers) - (ids - todo)
        decreases todo
      {
        var id :| id in todo;
        todo := todo - {id};
        buffers, lastSeen := buffers - {id}, lastSeen - {id};
      }
    }
  }
}
