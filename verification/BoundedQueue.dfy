/** The capture queue as a sequence of frames, and what its consumer gets to see over whole runs. */
module BoundedQueue {
  import opened Collections
  import opened Contracts

  datatype FrameInfo = FrameInfo(camera: string, sequence: int, monotonicNs: int, frame: Frame)

  /** `Waiting` is a blocked `publish`: nothing has happened yet. */
  datatype Outcome = Published | Rejected | Waiting

  /** A publish in one step. `noSlot`: every shared-memory slot is in use. */
  function AfterPublish(policy: DropPolicy, maxsize: nat, queue: seq<FrameInfo>, f: FrameInfo, noSlot: bool)
    : (Outcome, seq<FrameInfo>)
  {
    if !noSlot && |queue| < maxsize then (Published, queue + [f])
    else if policy == DropOldest && queue != [] then (Published, queue[1..] + [f])
    else if policy == Block then (Waiting, queue)
    else (Rejected, queue)
  }

  function NotFrom(camera: string): FrameInfo -> bool {
    (f: FrameInfo) => f.camera != camera
  }

  function Without(queue: seq<FrameInfo>, camera: string): seq<FrameInfo> {
    Filter(queue, NotFrom(camera))
  }

  datatype Op = Publish(frame: FrameInfo, noSlot: bool) | Get | Discard(camera: string)

  /** The queue with what has been accepted and delivered so far. `next` is the place, among the
      accepted frames, just after the last delivered one. */
  datatype Trace = Trace(queue: seq<FrameInfo>, accepted: seq<FrameInfo>, delivered: seq<FrameInfo>, next: nat)

  const START := Trace([], [], [], 0)

  function Step(policy: DropPolicy, maxsize: nat, t: Trace, op: Op): Trace {
    match op
    case Publish(f, noSlot) =>
      var (outcome, queue) := AfterPublish(policy, maxsize, t.queue, f, noSlot);
      if outcome == Published then t.(queue := queue, accepted := t.accepted + [f]) else t
    case Get =>
      if t.queue == [] then t
      else Trace(t.queue[1..], t.accepted, t.delivered + [t.queue[0]],
                 if |t.queue| <= |t.accepted| then |t.accepted| - |t.queue| + 1 else t.next)
    case Discard(c) => t.(queue := Without(t.queue, c))
  }

  function Run(policy: DropPolicy, maxsize: nat, ops: seq<Op>): Trace {
    if ops == [] then START else Step(policy, maxsize, Run(policy, maxsize, ops[..|ops| - 1]), ops[|ops| - 1])
  }

  predicate WithoutDiscards(ops: seq<Op>) {
    ops == [] || (WithoutDiscards(ops[..|ops| - 1]) && !ops[|ops| - 1].Discard?)
  }

  /** Neither discards nor shared memory. */
  predicate Slotless(ops: seq<Op>) {
    ops == [] || (Slotless(ops[..|ops| - 1]) && SlotlessOp(ops[|ops| - 1]))
  }

  // ---------------------------------------------------------------- subsequences

  /** `a` is what is left of `b` after some elements are dropped, in the same order. */
  ghost predicate IsSubsequence<T>(a: seq<T>, b: seq<T>) {
    if a == [] then true
    else if b == [] then false
    else (a[0] == b[0] && IsSubsequence(a[1..], b[1..])) || IsSubsequence(a, b[1..])
  }

  lemma {:induction false} SubsequenceOfMore<T>(a: seq<T>, b: seq<T>, c: seq<T>)
    requires IsSubsequence(a, b)
    ensures IsSubsequence(a, c + b)
  {
    if c == [] {
      assert c + b == b;
    } else {
      SubsequenceOfMore(a, b, c[1..]);
      assert (c + b)[1..] == c[1..] + b;
    }
  }

  lemma {:induction false} SubsequenceAfter<T>(a: seq<T>, b: seq<T>, c: seq<T>)
    requires IsSubsequence(a, b)
    ensures IsSubsequence(a + c, b + c)
    decreases |b|
  {
    if b == [] {
      assert a + c == c == b + c;
      SubsequenceOfItself(c);
    } else if a == [] {
      SubsequenceOfItself(c);
      assert a + c == c;
      SubsequenceOfMore(c, c, b);
    } else {
      assert (b + c)[1..] == b[1..] + c;
      if a[0] == b[0] && IsSubsequence(a[1..], b[1..]) {
        SubsequenceAfter(a[1..], b[1..], c);
        assert (a + c)[1..] == a[1..] + c;
      } else {
        SubsequenceAfter(a, b[1..], c);
      }
    }
  }

  lemma {:induction false} SubsequenceOfItself<T>(a: seq<T>)
    ensures IsSubsequence(a, a)
  {
    if a != [] {
      SubsequenceOfItself(a[1..]);
    }
  }

  lemma {:induction false} SubsequenceTransitive<T>(a: seq<T>, b: seq<T>, c: seq<T>)
    requires IsSubsequence(a, b) && IsSubsequence(b, c)
    ensures IsSubsequence(a, c)
    decreases |c|
  {
    if a != [] {
      if b[0] == c[0] && IsSubsequence(b[1..], c[1..]) {
        if a[0] == b[0] && IsSubsequence(a[1..], b[1..]) {
          SubsequenceTransitive(a[1..], b[1..], c[1..]);
        } else {
          SubsequenceTransitive(a, b[1..], c[1..]);
        }
      } else {
        SubsequenceTransitive(a, b, c[1..]);
      }
    }
  }

  lemma {:induction false} SubsequenceBefore<T>(c: seq<T>, a: seq<T>, b: seq<T>)
    requires IsSubsequence(a, b)
    ensures IsSubsequence(c + a, c + b)
  {
    if c == [] {
      assert c + a == a && c + b == b;
    } else {
      SubsequenceBefore(c[1..], a, b);
      assert (c + a)[1..] == c[1..] + a && (c + b)[1..] == c[1..] + b;
    }
  }

  lemma {:induction false} FilterIsSubsequence<T>(s: seq<T>, keep: T -> bool)
    ensures IsSubsequence(Filter(s, keep), s)
  {
    if s != [] {
      var rest := Filter(s[1..], keep);
      FilterIsSubsequence(s[1..], keep);
      assert s == [s[0]] + s[1..];
      if keep(s[0]) {
        SubsequenceBefore([s[0]], rest, s[1..]);
      } else {
        assert Filter(s, keep) == rest;
        SubsequenceOfMore(rest, s[1..], [s[0]]);
      }
    }
  }

  /** Discarding a camera takes out all and only its frames and keeps the others' order. */
  lemma WithoutIsExact(queue: seq<FrameInfo>, camera: string, f: FrameInfo)
    ensures IsSubsequence(Without(queue, camera), queue)
    ensures multiset(Without(queue, camera))[f] == if f.camera == camera then 0 else multiset(queue)[f]
    ensures |Without(queue, camera)| <= |queue|
  {
    FilterIsSubsequence(queue, NotFrom(camera));
    FilterCount(queue, NotFrom(camera), f);
    FilterIsExact(queue, NotFrom(camera));
  }

  // ---------------------------------------------------------------- runs

  lemma StepKeepsOrder(policy: DropPolicy, maxsize: nat, t: Trace, op: Op)
    requires IsSubsequence(t.delivered + t.queue, t.accepted) && |t.queue| <= maxsize
    ensures var t' := Step(policy, maxsize, t, op);
            IsSubsequence(t'.delivered + t'.queue, t'.accepted) && |t'.queue| <= maxsize
  {
    var t' := Step(policy, maxsize, t, op);
    match op
    case Publish(f, noSlot) =>
      SubsequenceAfter(t.delivered + t.queue, t.accepted, [f]);
      assert t.delivered + t.queue + [f] == t.delivered + (t.queue + [f]);
      if t' != t && t'.queue != t.queue + [f] {
        assert (t.queue + [f])[1..] == t'.queue;
        SubsequenceOfItself(t'.queue);
        SubsequenceOfMore(t'.queue, t'.queue, [t.queue[0]]);
        assert [t.queue[0]] + t'.queue == t.queue + [f];
        SubsequenceBefore(t.delivered, t'.queue, t.queue + [f]);
        SubsequenceTransitive(t.delivered + t'.queue, t.delivered + (t.queue + [f]), t'.accepted);
      }
    case Get =>
      if t.queue != [] {
        assert t'.delivered + t'.queue == t.delivered + t.queue;
      }
    case Discard(c) =>
      WithoutIsExact(t.queue, c, FrameInfo("", 0, 0, Frame(Shape(0, 0, 0), [])));
      SubsequenceBefore(t.delivered, t'.queue, t.queue);
      SubsequenceTransitive(t.delivered + t'.queue, t.delivered + t.queue, t.accepted);
  }

  /** Every policy, with and without slots, discards included: what the consumer has received
      followed by what waits is a subsequence of the accepted frames, so nothing is reordered or
      delivered twice, and the queue never holds more than `maxsize`. */
  lemma {:induction false} ConsumerSeesASubsequence(policy: DropPolicy, maxsize: nat, ops: seq<Op>)
    ensures var t := Run(policy, maxsize, ops);
            IsSubsequence(t.delivered + t.queue, t.accepted) && |t.queue| <= maxsize
  {
    if ops != [] {
      ConsumerSeesASubsequence(policy, maxsize, ops[..|ops| - 1]);
      StepKeepsOrder(policy, maxsize, Run(policy, maxsize, ops[..|ops| - 1]), ops[|ops| - 1]);
    }
  }

  /** The queue is the tail of the accepted history, after the last delivered frame. */
  ghost predicate IsTail(t: Trace) {
    && |t.queue| <= |t.accepted| - t.next
    && (forall i :: 0 <= i < |t.queue| ==> t.queue[i] == t.accepted[|t.accepted| - |t.queue| + i])
    && (t.delivered == [] ==> t.next == 0)
    && (t.delivered != [] ==> t.next > 0 && t.accepted[t.next - 1] == t.delivered[|t.delivered| - 1])
  }

  lemma PublishKeepsTail(policy: DropPolicy, maxsize: nat, t: Trace, f: FrameInfo, noSlot: bool)
    requires IsTail(t)
    ensures IsTail(Step(policy, maxsize, t, Publish(f, noSlot)))
  {
  }

  lemma GetKeepsTail(policy: DropPolicy, maxsize: nat, t: Trace)
    requires IsTail(t)
    ensures IsTail(Step(policy, maxsize, t, Get))
  {
  }

  /** Without discards the queue is the tail of the accepted history, under every policy. */
  lemma {:induction false} QueueIsASuffix(policy: DropPolicy, maxsize: nat, ops: seq<Op>)
    requires WithoutDiscards(ops)
    ensures IsTail(Run(policy, maxsize, ops))
  {
    if ops != [] {
      QueueIsASuffix(policy, maxsize, ops[..|ops| - 1]);
      var before, op := Run(policy, maxsize, ops[..|ops| - 1]), ops[|ops| - 1];
      hide Step, IsTail;
      if op.Publish? {
        PublishKeepsTail(policy, maxsize, before, op.frame, op.noSlot);
      } else {
        GetKeepsTail(policy, maxsize, before);
      }
    }
  }

  predicate SlotlessOp(op: Op) {
    !op.Discard? && (op.Publish? ==> !op.noSlot)
  }

  function PublishedFrames(ops: seq<Op>): seq<FrameInfo> {
    if ops == [] then []
    else PublishedFrames(ops[..|ops| - 1]) +
         (if ops[|ops| - 1].Publish? then [ops[|ops| - 1].frame] else [])
  }

  /** The queue is the newest `maxsize` of the given frames that come after the last delivered one. */
  ghost predicate HoldsNewest(maxsize: nat, t: Trace, frames: seq<FrameInfo>) {
    && IsTail(t)
    && t.accepted == frames
    && |t.queue| == Min(maxsize, |t.accepted| - t.next)
  }

  lemma StepKeepsNewest(maxsize: nat, t: Trace, op: Op, frames: seq<FrameInfo>)
    requires maxsize > 0 && SlotlessOp(op)
    requires HoldsNewest(maxsize, t, frames)
    ensures HoldsNewest(maxsize, Step(DropOldest, maxsize, t, op), frames + if op.Publish? then [op.frame] else [])
  {
  }

  /** Dropping the oldest, without shared memory: every frame is accepted, and the queue is exactly
      the last `maxsize` of the frames published after the last delivered one. */
  lemma {:induction false} DropOldestKeepsTheNewest(maxsize: nat, ops: seq<Op>)
    requires maxsize > 0 && Slotless(ops)
    ensures HoldsNewest(maxsize, Run(DropOldest, maxsize, ops), PublishedFrames(ops))
  {
    hide HoldsNewest, Step, IsTail, SlotlessOp;
    if ops == [] {
      StartHoldsNewest(maxsize);
    } else {
      var before, op := ops[..|ops| - 1], ops[|ops| - 1];
      DropOldestKeepsTheNewest(maxsize, before);
      StepKeepsNewest(maxsize, Run(DropOldest, maxsize, before), op, PublishedFrames(before));
    }
  }

  lemma StartHoldsNewest(maxsize: nat)
    ensures HoldsNewest(maxsize, START, [])
  {
  }
}
