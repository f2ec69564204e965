/** From one track sample to a batch for the orchestrator: buffer, gate, cooldown, queue. */
module IngressScheduler {
  import opened Collections
  import opened TemporalBuffer
  import opened LatestOnlyQueue
  import opened BatchWindow

  datatype WorkerConfig = WorkerConfig(
    minTemporalFrames: int,
    minConsecutiveHits: int,
    minCropWidth: int,
    minCropHeight: int,
    queueMaxsize: int,
    cooldown: int)

  /** The part of the gate that looks at the sample alone. */
  predicate SampleFit(config: WorkerConfig, s: Sample) {
    && config.minConsecutiveHits <= s.consecutiveHits
    && s.framesSinceUpdate == 0
    && config.minCropWidth <= s.width
    && config.minCropHeight <= s.height
  }

  function GateFailureReasons(config: WorkerConfig, s: Sample, depth: nat): (reasons: seq<string>)
    ensures reasons == [] <==> config.minTemporalFrames <= depth && SampleFit(config, s)
  {
    (if depth < config.minTemporalFrames then ["temporal_buffer_not_ready"] else [])
    + (if s.consecutiveHits < config.minConsecutiveHits then ["insufficient_consecutive_hits"] else [])
    + (if s.framesSinceUpdate != 0 then ["stale_track_frame"] else [])
    + (if s.width < config.minCropWidth then ["crop_width_below_threshold"] else [])
    + (if s.height < config.minCropHeight then ["crop_height_below_threshold"] else [])
  }

  /** Each reason is given exactly when its own check fails. */
  lemma ReasonsSayWhy(config: WorkerConfig, s: Sample, depth: nat)
    ensures var reasons := GateFailureReasons(config, s, depth);
            && ("temporal_buffer_not_ready" in reasons <==> depth < config.minTemporalFrames)
            && ("insufficient_consecutive_hits" in reasons <==> s.consecutiveHits < config.minConsecutiveHits)
            && ("stale_track_frame" in reasons <==> s.framesSinceUpdate != 0)
            && ("crop_width_below_threshold" in reasons <==> s.width < config.minCropWidth)
            && ("crop_height_below_threshold" in reasons <==> s.height < config.minCropHeight)
  {
  }

  /** What is promised of every batch stored or delivered for an identity. */
  ghost predicate GoodBatch(config: WorkerConfig, window: nat, gap: int, id: string, batch: Batch) {
    && config.minTemporalFrames <= |batch| <= window
    && (0 < window ==> batch != [])
    && Coherent(batch, id, gap)
    && (batch != [] ==> SampleFit(config, batch[|batch| - 1]))
  }

  /** With the model's window, a delivered batch becomes exactly that many frames, the last of them
      a sample that passed the gate, and every one a sample of the batch. */
  lemma GoodBatchFillsTheWindow(config: WorkerConfig, window: nat, gap: int, id: string, batch: Batch, required: nat)
    requires GoodBatch(config, window, gap, id, batch) && 0 < window && 0 < required
    ensures PrepareTemporalWindow(batch, required).Some?
    ensures var frames := PrepareTemporalWindow(batch, required).value.0;
            && |frames| == required
            && frames[required - 1] == batch[|batch| - 1] && SampleFit(config, frames[required - 1])
            && (forall i :: 0 <= i < required ==> frames[i] in batch)
  {
  }

  // ---------------------------------------------------------------- the cooldown

  /** Times that are at least the cooldown apart, in order. */
  ghost predicate Spaced(times: seq<int>, cooldown: int) {
    forall i :: 0 < i < |times| ==> cooldown <= times[i] - times[i - 1]
  }

  lemma {:induction false} SpacedSpan(times: seq<int>, cooldown: int)
    requires Spaced(times, cooldown) && times != []
    ensures (|times| - 1) * cooldown <= times[|times| - 1] - times[0]
  {
    if |times| > 1 {
      var before := times[..|times| - 1];
      SpacedSpan(before, cooldown);
      assert (|times| - 1) * cooldown == (|before| - 1) * cooldown + cooldown;
    }
  }

  /** At most D / cooldown + 1 attempts fall into a span of length D. */
  lemma RateBound(times: seq<int>, cooldown: int, first: nat, last: nat)
    requires Spaced(times, cooldown) && 0 < cooldown && first <= last < |times|
    ensures last - first + 1 <= (times[last] - times[first]) / cooldown + 1
  {
    var span := times[first..last + 1];
    assert Spaced(span, cooldown) by {
      forall i | 0 < i < |span| ensures cooldown <= span[i] - span[i - 1] {
        assert span[i] == times[first + i] && span[i - 1] == times[first + i - 1];
      }
    }
    SpacedSpan(span, cooldown);
    QuotientBound(last - first, times[last] - times[first], cooldown);
  }

  lemma QuotientBound(n: nat, d: int, c: int)
    requires 0 < c && n * c <= d
    ensures n <= d / c
  {
    var q := d / c;
    assert (n - q - 1) * c == n * c - q * c - c < 0;
    NegativeProduct(n - q - 1, c);
  }

  lemma NegativeProduct(x: int, c: int)
    requires 0 < c && x * c < 0
    ensures x < 0
  {
  }

  /** Every identity's attempts to enqueue, spaced out, with the last one on record. */
  ghost predicate Attempts(times: map<string, seq<int>>, lastEnqueuedAt: map<string, int>, cooldown: int) {
    cooldown > 0 ==>
      && times.Keys == lastEnqueuedAt.Keys
      && (forall id :: id in times ==>
           && times[id] != []
           && times[id][|times[id]| - 1] == lastEnqueuedAt[id]
           && Spaced(times[id], cooldown))
  }

  ghost function Recorded(times: map<string, seq<int>>, id: string, now: int): map<string, seq<int>> {
    times[id := (if id in times then times[id] else []) + [now]]
  }

  lemma AttemptRecorded(times: map<string, seq<int>>, lastEnqueuedAt: map<string, int>, cooldown: int, id: string,
                        now: int)
    requires Attempts(times, lastEnqueuedAt, cooldown)
    requires cooldown > 0 && id in lastEnqueuedAt ==> cooldown <= now - lastEnqueuedAt[id]
    ensures var enqueued := if cooldown > 0 then lastEnqueuedAt[id := now] else lastEnqueuedAt;
            Attempts(Recorded(times, id, now), enqueued, cooldown)
  {
  }

  // ---------------------------------------------------------------- the scheduler

  /** The sample just pushed ends the window, when there is room for one. */
  lemma PushedSampleEndsTheWindow(h: seq<Event>, s: Sample, gap: int, window: nat)
    requires 0 < window
    ensures var samples := LastN(Since(h + [Push(s)], s.persistentId, gap), window);
            samples != [] && samples[|samples| - 1] == s
  {
    SinceAfter(h, Push(s), s.persistentId, gap);
    hide Since;
  }

  datatype Outcome = Gated(reasons: seq<string>) | Cooling | QueueFull | Enqueued

  class InferenceIngressScheduler {
    const config: WorkerConfig
    const buffer: TemporalBufferService
    const queue: LatestOnlyQueue
    var lastEnqueuedAt: map<string, int>
    /** When `put_latest` was called for each identity. */
    ghost var attempts: map<string, seq<int>>

    ghost predicate StoredAreGood()
      reads queue
    {
      forall id :: id in queue.latest ==> GoodBatch(config, buffer.windowSize, buffer.gapReset, id, queue.latest[id])
    }

    ghost predicate Valid()
      reads this, buffer, queue
    {
      && buffer.Valid() && queue.Valid()
      && StoredAreGood()
      && Attempts(attempts, lastEnqueuedAt, config.cooldown)
    }

    constructor (config: WorkerConfig, buffer: TemporalBufferService)
      requires buffer.Valid()
      ensures Valid() && this.config == config && this.buffer == buffer && fresh(queue)
      ensures attempts == map[] && queue.Pending() == []
    {
      this.config, this.buffer := config, buffer;
      queue := new LatestOnlyQueue(config.queueMaxsize);
      lastEnqueuedAt, attempts := map[], map[];
    }

    ghost function Window(id: string): Batch
      reads buffer
    {
      LastN(Since(buffer.history, id, buffer.gapReset), buffer.windowSize)
    }

    /** The identity's batch was offered to the queue less than the cooldown ago. */
    ghost predicate OfferedLately(id: string, now: int)
      reads this
    {
      && 0 < config.cooldown && id in attempts && attempts[id] != []
      && now - attempts[id][|attempts[id]| - 1] < config.cooldown
    }

    lemma OfferedLatelyIsTooSoon(id: string, now: int)
      requires Attempts(attempts, lastEnqueuedAt, config.cooldown)
      ensures OfferedLately(id, now) <==> TooSoon(id, now)
    {
    }

    predicate TooSoon(id: string, now: int)
      reads this
    {
      config.cooldown > 0 && id in lastEnqueuedAt && now - lastEnqueuedAt[id] < config.cooldown
    }

    /** `ingest`, with the monotonic clock passed in. The batch that goes to the queue is the
        identity's window, which ends with this very sample. */
    method Ingest(sample: Sample, now: int) returns (outcome: Outcome)
      requires Valid()
      modifies this, buffer, queue
      ensures Valid()
      ensures buffer.history == old(buffer.history) + [Push(sample)]
      ensures outcome.Gated?
        <==> Min(buffer.windowSize, |Since(buffer.history, sample.persistentId, buffer.gapReset)|)
               < config.minTemporalFrames
             || sample.consecutiveHits < config.minConsecutiveHits || sample.framesSinceUpdate != 0
             || sample.width < config.minCropWidth || sample.height < config.minCropHeight
      ensures outcome.Gated? ==>
        outcome.reasons == GateFailureReasons(config, sample, |Window(sample.persistentId)|)
      ensures outcome.Cooling? <==> !outcome.Gated? && old(TooSoon(sample.persistentId, now))
      ensures outcome.Cooling? <==> !outcome.Gated? && old(OfferedLately(sample.persistentId, now))
      ensures outcome.Enqueued? ==> Entry(sample.persistentId, Window(sample.persistentId)) in queue.Pending()
      ensures outcome.Gated? || outcome.Cooling? ==>
        queue.Pending() == old(queue.Pending()) && lastEnqueuedAt == old(lastEnqueuedAt) && attempts == old(attempts)
      ensures outcome.QueueFull? || outcome.Enqueued? ==>
        && attempts == Recorded(old(attempts), sample.persistentId, now)
        && (outcome.Enqueued?, queue.Pending())
           == OrderedPut(old(queue.Pending()), queue.maxsize, sample.persistentId, Window(sample.persistentId))
        && GoodBatch(config, buffer.windowSize, buffer.gapReset, sample.persistentId, Window(sample.persistentId))
        && (0 < buffer.windowSize ==>
             Window(sample.persistentId) != []
               && Window(sample.persistentId)[|Window(sample.persistentId)| - 1] == sample)
    {
      hide Since, LastN, Coherent, Attempts, TemporalBufferService.Valid, LatestOnlyQueue.Valid, OrderedPut,
        GateFailureReasons, OfferedLately, TooSoon, Recorded;
      var id := sample.persistentId;
      if 0 < buffer.windowSize {
        PushedSampleEndsTheWindow(buffer.history, sample, buffer.gapReset, buffer.windowSize);
      }
      buffer.PushSample(sample);
      OfferedLatelyIsTooSoon(id, now);
      var depth := buffer.Depth(id);
      var reasons := GateFailureReasons(config, sample, depth);
      if reasons != [] {
        return Gated(reasons);
      }
      outcome := Dispatch(sample, now);
    }

    /** The half of `ingest` behind the gate. */
    method Dispatch(sample: Sample, now: int) returns (outcome: Outcome)
      requires Valid() && SampleFit(config, sample) && config.minTemporalFrames <= |Window(sample.persistentId)|
      requires 0 < buffer.windowSize ==>
        Window(sample.persistentId) != [] && Window(sample.persistentId)[|Window(sample.persistentId)| - 1] == sample
      modifies this, queue
      ensures Valid()
      ensures if old(TooSoon(sample.persistentId, now)) then outcome.Cooling?
        else outcome.QueueFull? || outcome.Enqueued?
      ensures outcome.Cooling? ==>
        queue.Pending() == old(queue.Pending()) && lastEnqueuedAt == old(lastEnqueuedAt) && attempts == old(attempts)
      ensures !outcome.Cooling? ==>
        && attempts == Recorded(old(attempts), sample.persistentId, now)
        && (outcome.Enqueued?, queue.Pending())
           == OrderedPut(old(queue.Pending()), queue.maxsize, sample.persistentId, Window(sample.persistentId))
        && GoodBatch(config, buffer.windowSize, buffer.gapReset, sample.persistentId, Window(sample.persistentId))
      ensures outcome.Enqueued? ==> Entry(sample.persistentId, Window(sample.persistentId)) in queue.Pending()
    {
      hide Since, LastN, Attempts, TemporalBufferService.Valid, LatestOnlyQueue.Valid, OrderedPut, SampleFit,
        Recorded, Entries, GoodBatch;
      var id := sample.persistentId;
      if config.cooldown > 0 {
        if id in lastEnqueuedAt && now - lastEnqueuedAt[id] < config.cooldown {
          return Cooling;
        }
      }
      WindowIsGood(sample);
      NoteAttempt(id, now);
      var batch := buffer.Get(id);
      var ok := queue.PutLatest(id, batch);
      return if ok then Enqueued else QueueFull;
    }

    method NoteAttempt(id: string, now: int)
      requires Attempts(attempts, lastEnqueuedAt, config.cooldown) && !TooSoon(id, now)
      modifies this`lastEnqueuedAt, this`attempts
      ensures Attempts(attempts, lastEnqueuedAt, config.cooldown)
      ensures attempts == Recorded(old(attempts), id, now)
    {
      hide Attempts, Recorded;
      AttemptRecorded(attempts, lastEnqueuedAt, config.cooldown, id, now);
      if config.cooldown > 0 {
        lastEnqueuedAt := lastEnqueuedAt[id := now];
      }
      attempts := Recorded(attempts, id, now);
    }

    /** The window of a sample that passed the gate is good. */
    lemma WindowIsGood(sample: Sample)
      requires SampleFit(config, sample) && config.minTemporalFrames <= |Window(sample.persistentId)|
      requires 0 < buffer.windowSize ==>
        Window(sample.persistentId) != [] && Window(sample.persistentId)[|Window(sample.persistentId)| - 1] == sample
      ensures GoodBatch(config, buffer.windowSize, buffer.gapReset, sample.persistentId, Window(sample.persistentId))
    {
      hide Since, Coherent, SampleFit;
      WindowLength(buffer.history, sample.persistentId, buffer.gapReset, buffer.windowSize);
      WindowIsCoherent(buffer.history, sample.persistentId, buffer.gapReset, buffer.windowSize);
    }

    lemma WindowLength(h: seq<Event>, id: string, gap: int, window: nat)
      ensures |LastN(Since(h, id, gap), window)| <= window
      ensures window == 0 ==> LastN(Since(h, id, gap), window) == []
    {
      hide Since;
    }

    /** What the orchestrator takes out is good, whenever it takes it. */
    method Deliver() returns (id: string, batch: Batch)
      requires Valid() && queue.Pending() != []
      modifies queue
      ensures Valid()
      ensures Entry(id, batch) == old(queue.Pending())[0] && queue.Pending() == old(queue.Pending())[1..]
      ensures GoodBatch(config, buffer.windowSize, buffer.gapReset, id, batch)
    {
      hide GoodBatch;
      id, batch := queue.GetBatch();
    }

    /** Attempts for one identity keep to the rate, over any stretch of them. */
    lemma AttemptsKeepTheRate(id: string, first: nat, last: nat)
      requires Valid() && config.cooldown > 0 && id in attempts && first <= last < |attempts[id]|
      ensures last - first + 1 <= (attempts[id][last] - attempts[id][first]) / config.cooldown + 1
    {
      RateBound(attempts[id], config.cooldown, first, last);
    }
  }
}
