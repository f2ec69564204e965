/** From the capture queue to the synchronizer: why what a group is given is orderly, although a
    camera whose worker is replaced counts from 0 again. */
module Delivery {
  import opened Collections
  import opened Contracts
  import opened BoundedQueue
  import opened Synchronizer

  function Only(camera: string): FrameInfo -> bool {
    (f: FrameInfo) => f.camera == camera
  }

  function InGroup(ids: seq<string>): FrameInfo -> bool {
    (f: FrameInfo) => f.camera in ids
  }

  /** The sequence numbers grow, as one capture worker counts them. */
  ghost predicate Growing(h: seq<FrameInfo>) {
    && (forall i :: 0 <= i < |h| ==> 0 <= h[i].sequence)
    && (forall i, j :: 0 <= i < j < |h| ==> h[i].sequence < h[j].sequence)
  }

  function NewlyAccepted(policy: DropPolicy, maxsize: nat, t: Trace, op: Op): seq<FrameInfo> {
    BoundedQueue.Step(policy, maxsize, t, op).accepted[|t.accepted|..]
  }

  function NewlyDelivered(policy: DropPolicy, maxsize: nat, t: Trace, op: Op): seq<FrameInfo> {
    BoundedQueue.Step(policy, maxsize, t, op).delivered[|t.delivered|..]
  }

  /** The camera's frames that got into the queue since its frames were last discarded, that is,
      since its present worker was started. */
  function AcceptedSince(policy: DropPolicy, maxsize: nat, ops: seq<Op>, camera: string): seq<FrameInfo> {
    if ops == [] then []
    else
      var before, op := ops[..|ops| - 1], ops[|ops| - 1];
      if op == Discard(camera) then []
      else
        AcceptedSince(policy, maxsize, before, camera)
        + Filter(NewlyAccepted(policy, maxsize, BoundedQueue.Run(policy, maxsize, before), op), Only(camera))
  }

  /** Discards, the camera's own among them: its frames are counted anew. */
  lemma {:induction false} CountsAnew(policy: DropPolicy, maxsize: nat, ops: seq<Op>, discards: seq<Op>, camera: string)
    requires Discard(camera) in discards && forall op :: op in discards ==> op.Discard?
    ensures AcceptedSince(policy, maxsize, ops + discards, camera) == []
  {
    var before, op := discards[..|discards| - 1], discards[|discards| - 1];
    assert discards == before + [op] && op in discards;
    assert (ops + discards)[..|ops + discards| - 1] == ops + before;
    if op != Discard(camera) {
      CountsAnew(policy, maxsize, ops, before, camera);
      assert NewlyAccepted(policy, maxsize, BoundedQueue.Run(policy, maxsize, ops + before), op) == [];
    }
  }

  /** The camera's frames that came out of the queue since then. */
  function DeliveredSince(policy: DropPolicy, maxsize: nat, ops: seq<Op>, camera: string): seq<FrameInfo> {
    if ops == [] then []
    else
      var before, op := ops[..|ops| - 1], ops[|ops| - 1];
      if op == Discard(camera) then []
      else
        DeliveredSince(policy, maxsize, before, camera)
        + Filter(NewlyDelivered(policy, maxsize, BoundedQueue.Run(policy, maxsize, before), op), Only(camera))
  }

  /** The camera's frames that were offered to the queue since then, accepted or not. */
  function PublishedSince(ops: seq<Op>, camera: string): seq<FrameInfo> {
    if ops == [] then []
    else
      var before, op := ops[..|ops| - 1], ops[|ops| - 1];
      if op == Discard(camera) then []
      else
        PublishedSince(before, camera)
        + (if op.Publish? && op.frame.camera == camera then [op.frame] else [])
  }

  // ---------------------------------------------------------------- parts of growing lists

  lemma {:induction false} SubsequenceGrows(a: seq<FrameInfo>, b: seq<FrameInfo>)
    requires IsSubsequence(a, b) && Growing(b)
    ensures Growing(a) && forall f :: f in a ==> f in b
    decreases |b|
  {
    if a != [] {
      var rest := b[1..];
      assert b == [b[0]] + rest;
      assert Growing(rest) by {
        assert forall i :: 0 <= i < |rest| ==> rest[i] == b[i + 1];
      }
      if a[0] == b[0] && IsSubsequence(a[1..], rest) {
        SubsequenceGrows(a[1..], rest);
        FirstGrows(a, b);
      } else {
        SubsequenceGrows(a, rest);
      }
    }
  }

  lemma FirstGrows(a: seq<FrameInfo>, b: seq<FrameInfo>)
    requires a != [] && b != [] && a[0] == b[0] && Growing(b)
    requires Growing(a[1..]) && forall f :: f in a[1..] ==> f in b[1..]
    ensures Growing(a) && forall f :: f in a ==> f in b
  {
    assert a == [a[0]] + a[1..] && b == [b[0]] + b[1..];
    forall j | 0 < j < |a| ensures a[0].sequence < a[j].sequence {
      assert a[j] == a[1..][j - 1] && a[j] in a[1..];
      var k :| 0 <= k < |b[1..]| && b[1..][k] == a[j];
      assert b[k + 1] == a[j];
    }
    forall i, j | 0 < i < j < |a| ensures a[i].sequence < a[j].sequence {
      assert a[i] == a[1..][i - 1] && a[j] == a[1..][j - 1];
    }
  }

  lemma {:induction false} SubsequenceOfLonger(a: seq<FrameInfo>, b: seq<FrameInfo>, c: seq<FrameInfo>)
    requires IsSubsequence(a, b)
    ensures IsSubsequence(a, b + c)
  {
    if a != [] {
      assert (b + c)[1..] == b[1..] + c;
      if a[0] == b[0] && IsSubsequence(a[1..], b[1..]) {
        SubsequenceOfLonger(a[1..], b[1..], c);
      } else {
        SubsequenceOfLonger(a, b[1..], c);
      }
    }
  }

  lemma {:induction false} SuffixGrows(a: seq<FrameInfo>, b: seq<FrameInfo>)
    requires Growing(a + b)
    ensures Growing(b)
  {
    forall i | 0 <= i < |b| ensures b[i] == (a + b)[|a| + i] {
    }
  }

  // ---------------------------------------------------------------- one camera through the queue

  /** One camera's frames through one step: what has come out, and then what waits, is a part of
      what got in. */
  lemma StepKeepsLane(policy: DropPolicy, maxsize: nat, t: Trace, op: Op, c: string,
                      accepted: seq<FrameInfo>, delivered: seq<FrameInfo>)
    requires op != Discard(c)
    requires IsSubsequence(delivered + Filter(t.queue, Only(c)), accepted)
    ensures var queue := BoundedQueue.Step(policy, maxsize, t, op).queue;
            IsSubsequence(delivered + Filter(NewlyDelivered(policy, maxsize, t, op), Only(c)) + Filter(queue, Only(c)),
                          accepted + Filter(NewlyAccepted(policy, maxsize, t, op), Only(c)))
  {
    hide IsSubsequence, Filter;
    var t' := BoundedQueue.Step(policy, maxsize, t, op);
    var out, got := NewlyDelivered(policy, maxsize, t, op), NewlyAccepted(policy, maxsize, t, op);
    NothingPasses(c);
    match op
    case Publish(f, noSlot) =>
      assert out == [];
      if t' == t {
        assert got == [];
        Unmoved(delivered, accepted, t.queue, c);
      } else {
        assert got == [f];
        Entered(delivered, accepted, t.queue, t'.queue, f, c);
      }
    case Get =>
      assert got == [];
      if t.queue == [] {
        assert out == [];
        Unmoved(delivered, accepted, t.queue, c);
      } else {
        assert out == [t.queue[0]] && t.queue == out + t'.queue;
        FilterConcat(out, t'.queue, Only(c));
        Regroup(delivered, Filter(out, Only(c)), Filter(t'.queue, Only(c)), accepted);
      }
    case Discard(d) =>
      assert got == [] && out == [];
      FilterTwice(t.queue, NotFrom(d), Only(c), Only(c));
      Unmoved(delivered, accepted, t.queue, c);
  }

  lemma NothingPasses(c: string)
    ensures Filter([], Only(c)) == []
  {
  }

  lemma Unmoved(delivered: seq<FrameInfo>, accepted: seq<FrameInfo>, queue: seq<FrameInfo>, c: string)
    requires IsSubsequence(delivered + Filter(queue, Only(c)), accepted)
    ensures IsSubsequence(delivered + [] + Filter(queue, Only(c)), accepted + [])
  {
    assert delivered + [] == delivered && accepted + [] == accepted;
  }

  lemma Regroup(a: seq<FrameInfo>, b: seq<FrameInfo>, c: seq<FrameInfo>, accepted: seq<FrameInfo>)
    requires IsSubsequence(a + (b + c), accepted)
    ensures IsSubsequence(a + b + c, accepted + [])
  {
    assert a + (b + c) == a + b + c && accepted + [] == accepted;
  }

  lemma Entered(delivered: seq<FrameInfo>, accepted: seq<FrameInfo>, before: seq<FrameInfo>, after: seq<FrameInfo>,
                f: FrameInfo, c: string)
    requires IsSubsequence(delivered + Filter(before, Only(c)), accepted)
    requires after == before + [f] || (before != [] && after == before[1..] + [f])
    ensures IsSubsequence(delivered + [] + Filter(after, Only(c)), accepted + Filter([f], Only(c)))
  {
    hide IsSubsequence, Filter;
    var tail := if after == before + [f] then before else before[1..];
    TailPasses(before, tail, c);
    FilterConcat(tail, [f], Only(c));
    StillPart(delivered, accepted, Filter(before, Only(c)), Filter(tail, Only(c)), Filter([f], Only(c)));
  }

  lemma StillPart(delivered: seq<FrameInfo>, accepted: seq<FrameInfo>, before: seq<FrameInfo>, tail: seq<FrameInfo>,
                  mine: seq<FrameInfo>)
    requires IsSubsequence(delivered + before, accepted) && IsSubsequence(tail, before)
    ensures IsSubsequence(delivered + [] + (tail + mine), accepted + mine)
  {
    hide IsSubsequence;
    SubsequenceBefore(delivered, tail, before);
    SubsequenceTransitive(delivered + tail, delivered + before, accepted);
    SubsequenceAfter(delivered + tail, accepted, mine);
    Reassociate(delivered, tail, mine);
    assert delivered + [] == delivered;
  }

  lemma TailPasses(queue: seq<FrameInfo>, tail: seq<FrameInfo>, c: string)
    requires tail == queue || (queue != [] && tail == queue[1..])
    ensures IsSubsequence(Filter(tail, Only(c)), Filter(queue, Only(c)))
  {
    var rest := Filter(tail, Only(c));
    SubsequenceOfItself(rest);
    if tail != queue {
      var first := if Only(c)(queue[0]) then [queue[0]] else [];
      SubsequenceOfMore(rest, rest, first);
    }
  }

  /** Since a camera's last discard: what has come out, and then what waits, is a part of what got in. */
  lemma {:induction false} LaneIsASubsequence(policy: DropPolicy, maxsize: nat, ops: seq<Op>, c: string)
    ensures var queued := Filter(BoundedQueue.Run(policy, maxsize, ops).queue, Only(c));
            IsSubsequence(DeliveredSince(policy, maxsize, ops, c) + queued, AcceptedSince(policy, maxsize, ops, c))
  {
    hide IsSubsequence, NewlyAccepted, NewlyDelivered, BoundedQueue.Step;
    if ops == [] {
      SubsequenceOfItself<FrameInfo>([]);
      NothingPasses(c);
      assert [] + Filter([], Only(c)) == [];
    } else {
      var before, op := ops[..|ops| - 1], ops[|ops| - 1];
      var t := BoundedQueue.Run(policy, maxsize, before);
      LaneIsASubsequence(policy, maxsize, before, c);
      if op == Discard(c) {
        DiscardLeavesNone(policy, maxsize, t, c);
        SubsequenceOfItself<FrameInfo>([]);
        assert [] + Filter(BoundedQueue.Run(policy, maxsize, ops).queue, Only(c)) == [];
      } else {
        StepKeepsLane(policy, maxsize, t, op, c,
                      AcceptedSince(policy, maxsize, before, c), DeliveredSince(policy, maxsize, before, c));
      }
    }
  }

  lemma {:induction false} NoneLeft(queue: seq<FrameInfo>, c: string)
    ensures Filter(Without(queue, c), Only(c)) == []
  {
    if queue != [] {
      NoneLeft(queue[1..], c);
      FilterConcat(if NotFrom(c)(queue[0]) then [queue[0]] else [], Without(queue[1..], c), Only(c));
    }
  }

  lemma DiscardLeavesNone(policy: DropPolicy, maxsize: nat, t: Trace, c: string)
    ensures Filter(BoundedQueue.Step(policy, maxsize, t, Discard(c)).queue, Only(c)) == []
  {
    NoneLeft(t.queue, c);
  }

  /** What got in is a part of what was offered, so a worker that counts all it offers is enough. */
  lemma {:induction false} AcceptedArePublished(policy: DropPolicy, maxsize: nat, ops: seq<Op>, c: string)
    ensures IsSubsequence(AcceptedSince(policy, maxsize, ops, c), PublishedSince(ops, c))
    ensures Growing(PublishedSince(ops, c)) ==> Growing(AcceptedSince(policy, maxsize, ops, c))
  {
    if ops != [] && ops[|ops| - 1] != Discard(c) {
      var before, op := ops[..|ops| - 1], ops[|ops| - 1];
      AcceptedArePublished(policy, maxsize, before, c);
      var accepted, published := AcceptedSince(policy, maxsize, before, c), PublishedSince(before, c);
      var got := Filter(NewlyAccepted(policy, maxsize, BoundedQueue.Run(policy, maxsize, before), op), Only(c));
      var offered := if op.Publish? && op.frame.camera == c then [op.frame] else [];
      OneGetsIn(policy, maxsize, BoundedQueue.Run(policy, maxsize, before), op, c);
      if got == [] {
        assert accepted + got == accepted;
        SubsequenceOfLonger(accepted, published, offered);
      } else {
        SubsequenceAfter(accepted, published, offered);
      }
    }
    if Growing(PublishedSince(ops, c)) {
      SubsequenceGrows(AcceptedSince(policy, maxsize, ops, c), PublishedSince(ops, c));
    }
  }

  lemma OneGetsIn(policy: DropPolicy, maxsize: nat, t: Trace, op: Op, c: string)
    ensures var got := Filter(NewlyAccepted(policy, maxsize, t, op), Only(c));
            got == [] || (op.Publish? && op.frame.camera == c && got == [op.frame])
  {
    var all := NewlyAccepted(policy, maxsize, t, op);
    assert all == [] || (op.Publish? && all == [op.frame]);
  }

  // ---------------------------------------------------------------- a group's frames

  /** While a group lasts none of its cameras' frames are discarded. */
  predicate NoDiscard(ops: seq<Op>, ids: seq<string>) {
    forall op :: op in ops && op.Discard? ==> op.camera !in ids
  }

  /** What has come out since a point in the run. */
  function DeliveredAfter(policy: DropPolicy, maxsize: nat, before: seq<Op>, after: seq<Op>): seq<FrameInfo> {
    if after == [] then []
    else
      var ops, op := after[..|after| - 1], after[|after| - 1];
      DeliveredAfter(policy, maxsize, before, ops)
      + NewlyDelivered(policy, maxsize, BoundedQueue.Run(policy, maxsize, before + ops), op)
  }

  /** It is the rest of what has come out at all. */
  lemma {:induction false} DeliveredAfterIsTheRest(policy: DropPolicy, maxsize: nat, before: seq<Op>, after: seq<Op>)
    ensures BoundedQueue.Run(policy, maxsize, before + after).delivered
      == BoundedQueue.Run(policy, maxsize, before).delivered + DeliveredAfter(policy, maxsize, before, after)
  {
    hide BoundedQueue.Step, NewlyDelivered;
    if after == [] {
      assert before + after == before;
    } else {
      var ops, op := after[..|after| - 1], after[|after| - 1];
      DeliveredAfterIsTheRest(policy, maxsize, before, ops);
      LastOfBoth(before, after);
      var t := BoundedQueue.Run(policy, maxsize, before + ops);
      NewOnesComeLast(policy, maxsize, t, op);
      Reassociate(BoundedQueue.Run(policy, maxsize, before).delivered, DeliveredAfter(policy, maxsize, before, ops),
                  NewlyDelivered(policy, maxsize, t, op));
    }
  }

  lemma LastOfBoth(before: seq<Op>, after: seq<Op>)
    requires after != []
    ensures before + after != [] && (before + after)[|before + after| - 1] == after[|after| - 1]
    ensures (before + after)[..|before + after| - 1] == before + after[..|after| - 1]
  {
  }

  lemma NewOnesComeLast(policy: DropPolicy, maxsize: nat, t: Trace, op: Op)
    ensures BoundedQueue.Step(policy, maxsize, t, op).delivered == t.delivered + NewlyDelivered(policy, maxsize, t, op)
  {
  }

  /** A camera of the group: what has come out of it since is part of what came out since its last discard. */
  lemma {:induction false} DeliveredAfterIsSince(policy: DropPolicy, maxsize: nat, before: seq<Op>, after: seq<Op>,
                                                 ids: seq<string>, c: string)
    requires NoDiscard(after, ids) && c in ids
    ensures DeliveredSince(policy, maxsize, before + after, c)
      == DeliveredSince(policy, maxsize, before, c) + Filter(DeliveredAfter(policy, maxsize, before, after), Only(c))
  {
    if after == [] {
      assert before + after == before;
    } else {
      var ops, op := after[..|after| - 1], after[|after| - 1];
      DeliveredAfterIsSince(policy, maxsize, before, ops, ids, c);
      LastOfBoth(before, after);
      hide BoundedQueue.Run, NewlyDelivered, Filter;
      assert op in after;
      var part := DeliveredAfter(policy, maxsize, before, ops);
      var next := NewlyDelivered(policy, maxsize, BoundedQueue.Run(policy, maxsize, before + ops), op);
      FilterConcat(part, next, Only(c));
      Reassociate(DeliveredSince(policy, maxsize, before, c), Filter(part, Only(c)), Filter(next, Only(c)));
    }
  }

  function Last(h: seq<FrameInfo>): Option<FrameInfo> {
    if h == [] then None else Some(h[|h| - 1])
  }

  lemma FilterOneMore(h: seq<FrameInfo>, f: FrameInfo, keep: FrameInfo -> bool)
    ensures Filter(h + [f], keep) == if keep(f) then Filter(h, keep) + [f] else Filter(h, keep)
  {
    FilterConcat(h, [f], keep);
    assert Filter(h, keep) + [] == Filter(h, keep);
  }

  lemma {:induction false} LatestIsLast(h: seq<FrameInfo>, ids: seq<string>, c: string)
    requires c in ids
    ensures Latest(Filter(h, InGroup(ids)), c) == Last(Filter(h, Only(c)))
  {
    if h != [] {
      var before, f := h[..|h| - 1], h[|h| - 1];
      LatestIsLast(before, ids, c);
      assert h == before + [f];
      FilterOneMore(before, f, InGroup(ids));
      FilterOneMore(before, f, Only(c));
      hide Filter, Latest;
      LatestAfter(Filter(before, InGroup(ids)), f, c);
    }
  }

  lemma {:induction false} GrowingIsOrderly(ids: seq<string>, h: seq<FrameInfo>)
    requires forall c :: c in ids ==> Growing(Filter(h, Only(c)))
    ensures Orderly(ids, Filter(h, InGroup(ids)))
  {
    if h != [] {
      var before, f := h[..|h| - 1], h[|h| - 1];
      assert h == before + [f];
      forall c | c in ids ensures Growing(Filter(before, Only(c))) {
        FilterConcat(before, [f], Only(c));
        PrefixGrows(Filter(before, Only(c)), Filter([f], Only(c)));
      }
      GrowingIsOrderly(ids, before);
      FilterOneMore(before, f, InGroup(ids));
      if f.camera in ids {
        FilterOneMore(before, f, Only(f.camera));
        LatestIsLast(before, ids, f.camera);
        OneMoreGrows(Filter(before, Only(f.camera)), f);
        OneMoreIsOrderly(ids, Filter(before, InGroup(ids)), f);
      }
    }
  }

  lemma OneMoreIsOrderly(ids: seq<string>, h: seq<FrameInfo>, f: FrameInfo)
    requires Orderly(ids, h) && f.camera in ids && 0 <= f.sequence
    requires Latest(h, f.camera).Some? ==> Latest(h, f.camera).value.sequence < f.sequence
    ensures Orderly(ids, h + [f])
  {
    assert (h + [f])[..|h|] == h;
  }

  lemma PrefixGrows(a: seq<FrameInfo>, b: seq<FrameInfo>)
    requires Growing(a + b)
    ensures Growing(a)
  {
    forall i | 0 <= i < |a| ensures a[i] == (a + b)[i] {
    }
  }

  lemma OneMoreGrows(a: seq<FrameInfo>, f: FrameInfo)
    requires Growing(a + [f])
    ensures 0 <= f.sequence && (Last(a).Some? ==> Last(a).value.sequence < f.sequence)
  {
    assert (a + [f])[|a|] == f;
    if a != [] {
      assert (a + [f])[|a| - 1] == a[|a| - 1];
    }
  }

  /** Workers that count their frames give a group an orderly run. `before` is what happened before
      the group was formed and `after` what has happened since; a camera whose worker was replaced
      has had its frames discarded and counts anew, but never while it is in the group. Whatever
      the policy drops, the group's delivered frames are orderly. */
  lemma DeliveredIsOrderly(policy: DropPolicy, maxsize: nat, before: seq<Op>, after: seq<Op>, ids: seq<string>)
    requires NoDiscard(after, ids)
    requires forall c :: c in ids ==> Growing(AcceptedSince(policy, maxsize, before + after, c))
    ensures Orderly(ids, Filter(DeliveredAfter(policy, maxsize, before, after), InGroup(ids)))
  {
    hide AcceptedSince, DeliveredSince, DeliveredAfter, Growing, Orderly, IsSubsequence, Filter, BoundedQueue.Run;
    var h := DeliveredAfter(policy, maxsize, before, after);
    forall c | c in ids ensures Growing(Filter(h, Only(c))) {
      var since := DeliveredSince(policy, maxsize, before + after, c);
      var queued := Filter(BoundedQueue.Run(policy, maxsize, before + after).queue, Only(c));
      LaneIsASubsequence(policy, maxsize, before + after, c);
      SubsequenceGrows(since + queued, AcceptedSince(policy, maxsize, before + after, c));
      PrefixGrows(since, queued);
      DeliveredAfterIsSince(policy, maxsize, before, after, ids, c);
      SuffixGrows(DeliveredSince(policy, maxsize, before, c), Filter(h, Only(c)));
    }
    GrowingIsOrderly(ids, h);
  }

  // ---------------------------------------------------------------- a record of the queue and the group

  /** `ops` is all that happened to the queue, the first `formed` of them before the group was
      formed, and `submitted` is what the group was given since: its cameras' delivered frames. */
  ghost predicate Recorded(policy: DropPolicy, maxsize: nat, ops: seq<Op>, formed: nat, queue: seq<FrameInfo>,
                           ids: seq<string>, submitted: seq<FrameInfo>) {
    && formed <= |ops|
    && BoundedQueue.Run(policy, maxsize, ops).queue == queue
    && NoDiscard(ops[formed..], ids)
    && submitted == Filter(DeliveredAfter(policy, maxsize, ops[..formed], ops[formed..]), InGroup(ids))
  }

  lemma RecordedIsOrderly(policy: DropPolicy, maxsize: nat, ops: seq<Op>, formed: nat, queue: seq<FrameInfo>,
                          ids: seq<string>, submitted: seq<FrameInfo>)
    requires Recorded(policy, maxsize, ops, formed, queue, ids, submitted)
    requires forall c :: c in ids ==> Growing(AcceptedSince(policy, maxsize, ops, c))
    ensures Orderly(ids, submitted)
  {
    hide BoundedQueue.Run, AcceptedSince, DeliveredAfter, Growing, Orderly, Filter;
    assert ops[..formed] + ops[formed..] == ops;
    DeliveredIsOrderly(policy, maxsize, ops[..formed], ops[formed..], ids);
  }

  lemma RunOneMore(policy: DropPolicy, maxsize: nat, ops: seq<Op>, op: Op)
    ensures BoundedQueue.Run(policy, maxsize, ops + [op])
      == BoundedQueue.Step(policy, maxsize, BoundedQueue.Run(policy, maxsize, ops), op)
  {
    assert (ops + [op])[..|ops|] == ops;
  }

  /** One more operation, with no discard of a group's frames. */
  lemma RecordStep(policy: DropPolicy, maxsize: nat, ops: seq<Op>, formed: nat, queue: seq<FrameInfo>,
                   ids: seq<string>, submitted: seq<FrameInfo>, op: Op)
    requires Recorded(policy, maxsize, ops, formed, queue, ids, submitted)
    requires op.Discard? ==> op.camera !in ids
    ensures var t := BoundedQueue.Run(policy, maxsize, ops);
            Recorded(policy, maxsize, ops + [op], formed, BoundedQueue.Step(policy, maxsize, t, op).queue, ids,
                     submitted + Filter(NewlyDelivered(policy, maxsize, t, op), InGroup(ids)))
  {
    hide BoundedQueue.Run, BoundedQueue.Step, NewlyDelivered, Filter;
    var before, after := ops[..formed], ops[formed..];
    RunOneMore(policy, maxsize, ops, op);
    assert (ops + [op])[..formed] == before && (ops + [op])[formed..] == after + [op];
    assert (after + [op])[..|after|] == after && before + after == ops;
    FilterConcat(DeliveredAfter(policy, maxsize, before, after),
                 NewlyDelivered(policy, maxsize, BoundedQueue.Run(policy, maxsize, ops), op), InGroup(ids));
  }

  lemma RecordPublish(policy: DropPolicy, maxsize: nat, ops: seq<Op>, formed: nat, queue: seq<FrameInfo>,
                      ids: seq<string>, submitted: seq<FrameInfo>, f: FrameInfo, noSlot: bool)
    requires Recorded(policy, maxsize, ops, formed, queue, ids, submitted)
    ensures Recorded(policy, maxsize, ops + [Publish(f, noSlot)], formed,
                     AfterPublish(policy, maxsize, queue, f, noSlot).1, ids, submitted)
  {
    RecordStep(policy, maxsize, ops, formed, queue, ids, submitted, Publish(f, noSlot));
    hide Recorded, BoundedQueue.Run;
    assert submitted + [] == submitted;
  }

  /** The head of the queue is taken, and submitted if it is of the group. */
  lemma RecordGet(policy: DropPolicy, maxsize: nat, ops: seq<Op>, formed: nat, queue: seq<FrameInfo>,
                  ids: seq<string>, submitted: seq<FrameInfo>)
    requires Recorded(policy, maxsize, ops, formed, queue, ids, submitted) && queue != []
    ensures Recorded(policy, maxsize, ops + [Get], formed, queue[1..], ids,
                     if queue[0].camera in ids then submitted + [queue[0]] else submitted)
  {
    RecordStep(policy, maxsize, ops, formed, queue, ids, submitted, Get);
    var t := BoundedQueue.Run(policy, maxsize, ops);
    assert t.queue == queue;
    hide Recorded, BoundedQueue.Run;
    assert NewlyDelivered(policy, maxsize, t, Get) == [queue[0]];
    FilterOneMore([], queue[0], InGroup(ids));
    assert [] + [queue[0]] == [queue[0]] && submitted + [] == submitted;
  }

  /** A new group starts its history now. */
  lemma RecordNewGroup(policy: DropPolicy, maxsize: nat, ops: seq<Op>, ids: seq<string>)
    ensures Recorded(policy, maxsize, ops, |ops|, BoundedQueue.Run(policy, maxsize, ops).queue, ids, [])
  {
    assert ops[|ops|..] == [];
  }

  /** One pass of the run loop: the head goes to its group, old or new, if its camera is active. */
  lemma RecordPass(policy: DropPolicy, maxsize: nat, ops: seq<Op>, formed: nat, queue: seq<FrameInfo>,
                   ids: seq<string>, newIds: seq<string>, submitted: seq<FrameInfo>)
    requires Recorded(policy, maxsize, ops, formed, queue, ids, submitted) && queue != []
    requires newIds != ids ==> queue[0].camera in newIds
    ensures var (start, earlier) := if newIds == ids then (formed, submitted) else (|ops|, []);
            Recorded(policy, maxsize, ops + [Get], start, queue[1..], newIds,
                     if queue[0].camera in newIds then earlier + [queue[0]] else submitted)
  {
    hide DeliveredAfter, BoundedQueue.Run, Filter;
    if newIds == ids {
      RecordGet(policy, maxsize, ops, formed, queue, ids, submitted);
    } else {
      RecordNewGroup(policy, maxsize, ops, newIds);
      RecordGet(policy, maxsize, ops, |ops|, queue, newIds, []);
    }
  }

  /** Discards of cameras that are not of the group. */
  lemma {:induction false} RecordDiscards(policy: DropPolicy, maxsize: nat, ops: seq<Op>, formed: nat,
                                          queue: seq<FrameInfo>, ids: seq<string>, submitted: seq<FrameInfo>,
                                          discards: seq<Op>)
    requires Recorded(policy, maxsize, ops, formed, queue, ids, submitted)
    requires forall op :: op in discards ==> op.Discard? && op.camera !in ids
    ensures Recorded(policy, maxsize, ops + discards, formed,
                     BoundedQueue.Run(policy, maxsize, ops + discards).queue, ids, submitted)
  {
    hide BoundedQueue.Run, DeliveredAfter, Filter;
    if discards == [] {
      assert ops + discards == ops;
    } else {
      var before, op := discards[..|discards| - 1], discards[|discards| - 1];
      RecordDiscards(policy, maxsize, ops, formed, queue, ids, submitted, before);
      assert op in discards;
      RecordDiscard(policy, maxsize, ops + before, formed, BoundedQueue.Run(policy, maxsize, ops + before).queue,
                    ids, submitted, op);
      assert ops + before + [op] == ops + discards;
      hide Recorded;
    }
  }

  lemma RecordDiscard(policy: DropPolicy, maxsize: nat, ops: seq<Op>, formed: nat, queue: seq<FrameInfo>,
                      ids: seq<string>, submitted: seq<FrameInfo>, op: Op)
    requires Recorded(policy, maxsize, ops, formed, queue, ids, submitted)
    requires op.Discard? && op.camera !in ids
    ensures Recorded(policy, maxsize, ops + [op], formed, Without(queue, op.camera), ids, submitted)
    ensures BoundedQueue.Run(policy, maxsize, ops + [op]).queue == Without(queue, op.camera)
  {
    RecordStep(policy, maxsize, ops, formed, queue, ids, submitted, op);
    RunOneMore(policy, maxsize, ops, op);
    hide Recorded, BoundedQueue.Run;
    assert submitted + [] == submitted;
  }

  lemma RunDiscard(policy: DropPolicy, maxsize: nat, ops: seq<Op>, c: string)
    ensures BoundedQueue.Run(policy, maxsize, ops + [Discard(c)]).queue
      == Without(BoundedQueue.Run(policy, maxsize, ops).queue, c)
  {
    RunOneMore(policy, maxsize, ops, Discard(c));
  }

  /** Cameras are removed: the group is the same and had none of them, or it has nothing yet. */
  lemma RecordRemovals(policy: DropPolicy, maxsize: nat, ops: seq<Op>, formed: nat, queue: seq<FrameInfo>,
                       ids: seq<string>, submitted: seq<FrameInfo>, discards: seq<Op>,
                       newIds: seq<string>, newSubmitted: seq<FrameInfo>)
    requires Recorded(policy, maxsize, ops, formed, queue, ids, submitted)
    requires forall op :: op in discards ==> op.Discard?
    requires newSubmitted == [] || (newIds == ids && newSubmitted == submitted
                                    && forall op :: op in discards ==> op.camera !in ids)
    ensures Recorded(policy, maxsize, ops + discards, if newSubmitted == [] then |ops + discards| else formed,
                     BoundedQueue.Run(policy, maxsize, ops + discards).queue, newIds, newSubmitted)
  {
    hide Recorded;
    if newSubmitted == [] {
      RecordNewGroup(policy, maxsize, ops + discards, newIds);
    } else {
      RecordDiscards(policy, maxsize, ops, formed, queue, ids, submitted, discards);
    }
  }
}
