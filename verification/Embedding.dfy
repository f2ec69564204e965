/** Embedding crops in chunks, and many callers' crops in one go. */
module Embedding {
  import opened Collections

  /** An image crop and an embedding vector; nothing here looks inside them. */
  type Crop = nat
  type Vector = nat

  // ---------------------------------------------------------------- the embedder

  function Each(crops: seq<Crop>, model: Crop -> Vector): seq<Vector> {
    seq(|crops|, i requires 0 <= i < |crops| => model(crops[i]))
  }

  /** What the embedder returns: one vector a crop, in order - unless the chunk size is not positive:
      chunks of no crops are an error, and a negative size makes no chunks at all. */
  function Embedded(crops: seq<Crop>, model: Crop -> Vector, maxBatchSize: int): Option<seq<Vector>> {
    if crops == [] || maxBatchSize < 0 then Some([])
    else if maxBatchSize == 0 then None
    else Some(Each(crops, model))
  }

  /** `embed`: chunk by chunk it gives what one pass would. */
  method Embed(crops: seq<Crop>, model: Crop -> Vector, maxBatchSize: int) returns (embeddings: Option<seq<Vector>>)
    ensures embeddings == Embedded(crops, model, maxBatchSize)
    ensures embeddings == Some(Each(crops, model)) <==> crops == [] || 0 < maxBatchSize
    ensures crops == [] || 0 < maxBatchSize ==>
      && embeddings.Some? && |embeddings.value| == |crops|
      && forall i :: 0 <= i < |crops| ==> embeddings.value[i] == model(crops[i])
    ensures crops != [] && maxBatchSize == 0 ==> embeddings.None?
    ensures crops != [] && maxBatchSize < 0 ==> embeddings == Some([])
  {
    if crops == [] || maxBatchSize < 0 {
      assert Each([], model) == [];
      assert crops != [] ==> |Each(crops, model)| != 0;
      return Some([]);
    }
    if maxBatchSize == 0 {
      return None;
    }
    var all: seq<Vector> := [];
    var batchStart := 0;
    while batchStart < |crops|
      invariant 0 <= batchStart
      invariant all == Each(if batchStart <= |crops| then crops[..batchStart] else crops, model)
    {
      var batchEnd := if batchStart + maxBatchSize <= |crops| then batchStart + maxBatchSize else |crops|;
      all := all + Each(crops[batchStart..batchEnd], model);
      batchStart := batchStart + maxBatchSize;
    }
    assert |crops| == batchStart ==> crops[..batchStart] == crops;
    return Some(all);
  }

  // ---------------------------------------------------------------- the shared service

  datatype Outcome = Pending | Result(embeddings: seq<Vector>) | Failed | Cancelled

  class Future {
    var outcome: Outcome

    constructor ()
      ensures outcome == Pending
    {
      outcome := Pending;
    }

    /** A future is completed once. */
    method Complete(result: Outcome)
      requires outcome == Pending
      modifies this
      ensures outcome == result
    {
      outcome := result;
    }
  }

  datatype Request = Request(crops: seq<Crop>, future: Future)

  function Futures(requests: seq<Request>): set<Future> {
    set r | r in requests :: r.future
  }

  ghost predicate OneFutureEach(requests: seq<Request>) {
    forall i, j :: 0 <= i < j < |requests| ==> requests[i].future != requests[j].future
  }

  function Concatenated(requests: seq<Request>): seq<Crop> {
    if requests == [] then [] else Concatenated(requests[..|requests| - 1]) + requests[|requests| - 1].crops
  }

  /** A slice that runs past the end stops there. */
  function Slice<T>(s: seq<T>, from: nat, to: nat): seq<T>
    requires from <= to
  {
    if |s| <= from then [] else if |s| < to then s[from..] else s[from..to]
  }

  /** The outcome every caller should see: what the embedder would have returned for its own crops. */
  function Separate(request: Request, model: Crop -> Vector, maxBatchSize: int, breaks: bool): (o: Outcome)
    ensures request.crops != [] ==> (o.Failed? <==> breaks || maxBatchSize == 0)
    ensures !breaks && 0 < maxBatchSize ==>
      && o.Result? && |o.embeddings| == |request.crops|
      && forall i :: 0 <= i < |request.crops| ==> o.embeddings[i] == model(request.crops[i])
  {
    var own := Embedded(request.crops, model, maxBatchSize);
    if breaks || own.None? then Failed else Result(own.value)
  }

  /** Request `i` finds its crops between its two offsets. */
  ghost predicate Marked(r: Request, all: seq<Crop>, from: nat, to: nat) {
    from <= to <= |all| && all[from..to] == r.crops
  }

  ghost predicate Offsets(requests: seq<Request>, all: seq<Crop>, offsets: seq<nat>) {
    && |offsets| == |requests| + 1
    && (forall i, j :: 0 <= i < |requests| && j == i + 1 ==> Marked(requests[i], all, offsets[i], offsets[j]))
  }

  /** The loop that strings the crops together and notes where each request's begin and end. */
  method Coalesce(requests: seq<Request>) returns (all: seq<Crop>, offsets: seq<nat>)
    ensures all == Concatenated(requests) && Offsets(requests, all, offsets)
  {
    all, offsets := [], [0];
    var i := 0;
    while i < |requests|
      invariant 0 <= i <= |requests|
      invariant all == Concatenated(requests[..i]) && Offsets(requests[..i], all, offsets)
      invariant offsets[i] == |all|
    {
      assert requests[..i + 1][..i] == requests[..i];
      ghost var before, starts := all, offsets;
      all := all + requests[i].crops;
      offsets := offsets + [|all|];
      OffsetsGrow(requests[..i], before, starts, requests[i]);
      assert requests[..i] + [requests[i]] == requests[..i + 1];
      i := i + 1;
    }
    assert requests[..i] == requests;
  }

  lemma OffsetsGrow(requests: seq<Request>, all: seq<Crop>, offsets: seq<nat>, r: Request)
    requires Offsets(requests, all, offsets) && offsets[|requests|] == |all|
    ensures Offsets(requests + [r], all + r.crops, offsets + [|all + r.crops|])
  {
  }

  /** A request's slice of the common result is its own result. */
  lemma SliceIsOwn(requests: seq<Request>, all: seq<Crop>, offsets: seq<nat>, model: Crop -> Vector, maxBatchSize: int,
                   i: nat)
    requires Offsets(requests, all, offsets) && i < |requests| && requests[i].crops != []
    ensures offsets[i] <= offsets[i + 1]
    ensures var together := Embedded(all, model, maxBatchSize);
            var own := Embedded(requests[i].crops, model, maxBatchSize);
            && (together.None? <==> own.None?)
            && (together.Some? ==> Slice(together.value, offsets[i], offsets[i + 1]) == own.value)
  {
  }

  /** What the distribution has for request `i`. */
  function Share(together: Option<seq<Vector>>, offsets: seq<nat>, i: nat): Outcome
    requires i + 1 < |offsets|
  {
    if together.None? then Failed
    else Result(Slice(together.value, offsets[i], if offsets[i] <= offsets[i + 1] then offsets[i + 1] else offsets[i]))
  }

  class SharedEmbeddingService {
    const model: Crop -> Vector
    const maxBatchSize: int
    var queue: seq<Request>

    /** Queued requests have crops and a future each. */
    ghost predicate Valid()
      reads this
    {
      OneFutureEach(queue) && forall r :: r in queue ==> r.crops != []
    }

    constructor (model: Crop -> Vector, maxBatchSize: int)
      ensures Valid() && queue == [] && this.model == model && this.maxBatchSize == maxBatchSize
    {
      this.model, this.maxBatchSize, queue := model, maxBatchSize, [];
    }

    /** `embed_async` up to where it waits; no crops are answered at once. */
    method EmbedAsync(crops: seq<Crop>) returns (future: Future)
      requires Valid()
      modifies this
      ensures Valid() && fresh(future)
      ensures crops == [] ==> queue == old(queue) && future.outcome == Result([])
      ensures crops != [] ==> queue == old(queue) + [Request(crops, future)] && future.outcome == Pending
    {
      future := new Future();
      if crops == [] {
        future.Complete(Result([]));
        return;
      }
      queue := queue + [Request(crops, future)];
    }

    /** While the model runs, callers may give up. */
    method CallersGiveUp(requests: seq<Request>) returns (ghost gone: set<Future>)
      modifies Futures(requests)
      ensures gone <= Futures(requests)
      ensures forall f :: f in Futures(requests) ==>
        f.outcome == if f in gone && old(f.outcome) == Pending then Cancelled else old(f.outcome)
    {
      gone := {};
      var i := 0;
      while i < |requests|
        invariant 0 <= i <= |requests| && gone <= Futures(requests)
        invariant forall f :: f in Futures(requests) ==>
          f.outcome == if f in gone && old(f.outcome) == Pending then Cancelled else old(f.outcome)
      {
        var givesUp: bool := *;
        assert requests[i].future in Futures(requests);
        if givesUp && requests[i].future.outcome == Pending {
          requests[i].future.Complete(Cancelled);
          gone := gone + {requests[i].future};
        }
        i := i + 1;
      }
    }

    /** One round of `run`: everything queued is embedded together. `breaks` stands for a failing
        forward pass. Every caller that has not given up gets what the embedder would have returned,
        or raised, for its crops alone; what is done already is left alone. */
    method RunOnce(breaks: bool) returns (ghost requests: seq<Request>, ghost gone: set<Future>)
      requires Valid() && queue != []
      modifies this, Futures(queue)
      ensures Valid() && queue == [] && requests == old(queue)
      ensures forall r :: r in requests ==>
        r.future.outcome ==
          if old(r.future.outcome) != Pending then old(r.future.outcome)
          else if r.future in gone then Cancelled
          else Separate(r, model, maxBatchSize, breaks)
    {
      var pending := queue;
      queue := [];
      requests := pending;
      var all, offsets := Coalesce(pending);
      var together := Embed(all, model, maxBatchSize);
      gone := CallersGiveUp(pending);
      var result := if breaks then None else together;
      forall i | 0 <= i < |pending| ensures Separate(pending[i], model, maxBatchSize, breaks)
        == Share(result, offsets, i) {
        SliceIsOwn(pending, all, offsets, model, maxBatchSize, i);
      }
      Distribute(pending, result, offsets);
      forall r | r in requests
        ensures r.future.outcome ==
          if old(r.future.outcome) != Pending then old(r.future.outcome)
          else if r.future in gone then Cancelled
          else Separate(r, model, maxBatchSize, breaks) {
        var i :| 0 <= i < |pending| && pending[i] == r;
        assert r.future in Futures(pending);
      }
    }

    /** The loop that completes the futures nobody has completed. */
    method Distribute(pending: seq<Request>, together: Option<seq<Vector>>, offsets: seq<nat>)
      requires OneFutureEach(pending) && |offsets| == |pending| + 1
      modifies Futures(pending)
      ensures forall i :: 0 <= i < |pending| ==>
        pending[i].future.outcome ==
          if old(pending[i].future.outcome) != Pending then old(pending[i].future.outcome)
            else Share(together, offsets, i)
    {
      hide Share;
      var k := 0;
      while k < |pending|
        invariant 0 <= k <= |pending|
        invariant forall i :: 0 <= i < |pending| ==>
          pending[i].future.outcome ==
            if k <= i || old(pending[i].future.outcome) != Pending then old(pending[i].future.outcome)
            else Share(together, offsets, i)
      {
        var future := pending[k].future;
        assert pending[k] in pending;
        if future.outcome == Pending {
          future.Complete(Share(together, offsets, k));
        }
        k := k + 1;
      }
    }
  }
}
