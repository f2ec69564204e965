/** A publish nobody interrupts: the interleaving machine against the one-step model. */
module AtomicPublish {
  import opened Collections
  import opened Contracts
  import opened SlotPool
  import opened FrameOwnership
  import BoundedQueue

  /** The machine does not keep stamps; both sides are compared without them. */
  function Info(p: Packet): BoundedQueue.FrameInfo {
    BoundedQueue.FrameInfo(p.camera, p.sequence, 0, p.frame)
  }

  function InfoOf(c: Capture): BoundedQueue.FrameInfo {
    BoundedQueue.FrameInfo(c.camera, c.sequence, 0, c.frame)
  }

  function Infos(queue: seq<Packet>): seq<BoundedQueue.FrameInfo> {
    seq(|queue|, i requires 0 <= i < |queue| => Info(queue[i]))
  }

  ghost predicate NoSlot(s: System) {
    |s.slots.inUse| == s.slots.maxSlots
  }

  ghost function Advances(s: System, t: Thread, n: nat): System
    decreases n
  {
    if n == 0 then s else Advances(AdvanceHand(s, t), t, n - 1)
  }

  /** The thread begins a publish and gets to the end of it, or to where it waits, alone: no
      publish takes more than six operations. */
  ghost function Alone(s: System, t: Thread, c: Capture): System {
    Run(s, [Begin(t, c)] + seq(6, _ => Advance(t)))
  }

  lemma {:induction false} RunAdvances(s: System, t: Thread, n: nat)
    ensures Run(s, seq(n, _ => Advance(t))) == Advances(s, t, n)
    decreases n
  {
    var actions := seq(n, _ => Advance(t));
    if n > 0 {
      assert actions[1..] == seq(n - 1, _ => Advance(t));
      assert Step(s, actions[0]) == AdvanceHand(s, t);
      RunAdvances(AdvanceHand(s, t), t, n - 1);
      hide AdvanceHand;
    }
  }

  lemma AloneIsAdvances(s: System, t: Thread, c: Capture)
    requires HandOf(s, t) == Idle && c.frame.shape == s.conf.shape
    ensures Alone(s, t, c) == Advances(SetHand(s, t, Wanting(c)), t, 6)
  {
    var rest := seq(6, _ => Advance(t));
    assert ([Begin(t, c)] + rest)[1..] == rest;
    RunAdvances(SetHand(s, t, Wanting(c)), t, 6);
    hide Advances, AdvanceHand;
  }

  // ---------------------------------------------------------------- one operation each

  /** Where the thread stands and what is queued. */
  ghost predicate At(s: System, t: Thread, hand: Hand, queue: seq<Packet>, policy: DropPolicy, capacity: nat) {
    && HandOf(s, t) == hand && s.queue == queue
    && s.conf.policy == policy && s.conf.capacity == capacity
  }

  lemma TakesSlot(s: System, t: Thread, h: Hand, q: seq<Packet>, policy: DropPolicy, n: nat) returns (p: Packet)
    requires At(s, t, h, q, policy, n) && (h.Wanting? || h.Retrying?)
    requires s.slots.Valid() && !NoSlot(s)
    ensures At(AdvanceHand(s, t), t, Writing(p), q, policy, n) && Info(p) == InfoOf(h.capture)
  {
    hide Slots.Acquire, Slots.Valid, PopOldest, ReleaseInHand, CopyIn, TryPut;
    s.slots.AcquireTakesAFreeSlot(s.conf.blank);
    p := HandOf(AdvanceHand(s, t), t).packet;
  }

  lemma FindsNoSlot(s: System, t: Thread, h: Hand, q: seq<Packet>, policy: DropPolicy, n: nat)
    requires At(s, t, h, q, policy, n) && (h.Wanting? || h.Retrying?)
    requires s.slots.Valid() && NoSlot(s)
    ensures At(AdvanceHand(s, t), t, WithoutSlot(policy, h), q, policy, n)
    ensures s.slots == AdvanceHand(s, t).slots
  {
    hide Slots.Acquire, Slots.Valid, PopOldest, ReleaseInHand, CopyIn, TryPut;
    s.slots.AcquireTakesAFreeSlot(s.conf.blank);
  }

  lemma CopiesIn(s: System, t: Thread, p: Packet, q: seq<Packet>, policy: DropPolicy, n: nat)
    requires At(s, t, Writing(p), q, policy, n)
    ensures At(AdvanceHand(s, t), t, Offering(p), q, policy, n)
  {
    hide Slots.Write, PopOldest, ReleaseInHand, TryAcquire, TryPut;
  }

  lemma Offers(s: System, t: Thread, h: Hand, q: seq<Packet>, policy: DropPolicy, n: nat)
    requires At(s, t, h, q, policy, n) && (h.Offering? || h.Waiting? || h.LastOffer?)
    ensures At(AdvanceHand(s, t), t, if |q| < n then Idle else WithoutRoom(policy, h),
               if |q| < n then q + [h.packet] else q, policy, n)
  {
    hide PopOldest, ReleaseInHand, TryAcquire, CopyIn, WithoutRoom;
  }

  lemma Pops(s: System, t: Thread, h: Hand, q: seq<Packet>, policy: DropPolicy, n: nat)
    requires At(s, t, h, q, policy, n) && (h.Evicting? || h.MakingRoom?) && q != []
    ensures At(AdvanceHand(s, t), t,
               if h.Evicting? then Freeing(h.capture, q[0]) else Swapping(h.packet, q[0]), q[1..], policy, n)
  {
    hide ReleaseInHand, TryAcquire, CopyIn, TryPut;
  }

  lemma PopsNothing(s: System, t: Thread, h: Hand, policy: DropPolicy, n: nat)
    requires At(s, t, h, [], policy, n) && h.Evicting?
    ensures At(AdvanceHand(s, t), t, Idle, [], policy, n)
  {
    hide ReleaseInHand, TryAcquire, CopyIn, TryPut;
  }

  lemma LetsGo(s: System, t: Thread, h: Hand, q: seq<Packet>, policy: DropPolicy, n: nat)
    requires At(s, t, h, q, policy, n) && (h.Freeing? || h.Swapping? || h.Rejecting?)
    ensures At(AdvanceHand(s, t), t,
               if h.Freeing? then Retrying(h.capture) else if h.Swapping? then LastOffer(h.packet) else Idle,
               q, policy, n)
  {
    hide PopOldest, TryAcquire, CopyIn, TryPut, Slots.Release;
  }

  /** A freed victim's slot is there to be taken. */
  lemma FreesASlot(s: System, t: Thread, h: Hand)
    requires Inv(s) && HandOf(s, t) == h && h.Freeing?
    ensures !NoSlot(AdvanceHand(s, t))
  {
    InHandIsLive(s, t, h.victim);
    assert h.victim.slot in s.slots.inUse;
    s.slots.ReleaseReturnsTheSlot(h.victim.slot);
    s.slots.Partition();
    assert AdvanceHand(s, t).slots == s.slots.Release(h.victim.slot);
    hide Inv, Slots.Release, Slots.Valid, AdvanceHand;
  }

  lemma StaysIdle(s: System, t: Thread, k: nat)
    requires HandOf(s, t) == Idle
    ensures Advances(s, t, k) == s
    decreases k
  {
    if k > 0 {
      assert AdvanceHand(s, t) == s;
      StaysIdle(s, t, k - 1);
    }
  }

  // ---------------------------------------------------------------- all the way

  /** With its pixels still to copy and room in the queue. */
  lemma WithRoom(s: System, t: Thread, p: Packet, q: seq<Packet>, policy: DropPolicy, n: nat, k: nat)
    requires At(s, t, Writing(p), q, policy, n) && |q| < n && 2 <= k
    ensures At(Advances(s, t, k), t, Idle, q + [p], policy, n)
  {
    hide AdvanceHand;
    var s1 := AdvanceHand(s, t);
    CopiesIn(s, t, p, q, policy, n);
    Offers(s1, t, Offering(p), q, policy, n);
    var s2 := AdvanceHand(s1, t);
    assert Advances(s, t, k) == Advances(s1, t, k - 1) == Advances(s2, t, k - 2);
    StaysIdle(s2, t, k - 2);
  }

  /** Where a thread with a slot ends when the queue is full. */
  function EndWhenFull(p: Packet, q: seq<Packet>, policy: DropPolicy): (Hand, seq<Packet>)
    requires q != []
  {
    match policy
    case DropOldest => (Idle, q[1..] + [p])
    case DropNewest => (Idle, q)
    case Block => (Waiting(p), q)
  }

  lemma WhenFull(s: System, t: Thread, p: Packet, q: seq<Packet>, policy: DropPolicy)
    requires At(s, t, Writing(p), q, policy, |q|) && q != []
    ensures var (hand, queue) := EndWhenFull(p, q, policy); At(Advances(s, t, 5), t, hand, queue, policy, |q|)
  {
    hide AdvanceHand;
    var n := |q|;
    var s1 := AdvanceHand(s, t);
    CopiesIn(s, t, p, q, policy, n);
    Offers(s1, t, Offering(p), q, policy, n);
    var s2 := AdvanceHand(s1, t);
    assert Advances(s, t, 5) == Advances(s1, t, 4) == Advances(s2, t, 3);
    match policy
    case DropOldest => MakesRoom(s2, t, p, q);
    case DropNewest =>
      LetsGo(s2, t, Rejecting(p), q, policy, n);
      assert Advances(s2, t, 3) == Advances(AdvanceHand(s2, t), t, 2);
      StaysIdle(AdvanceHand(s2, t), t, 2);
    case Block => KeepsWaiting(s2, t, p, q, 3);
  }

  lemma MakesRoom(s: System, t: Thread, p: Packet, q: seq<Packet>)
    requires At(s, t, MakingRoom(p), q, DropOldest, |q|) && q != []
    ensures At(Advances(s, t, 3), t, Idle, q[1..] + [p], DropOldest, |q|)
  {
    hide AdvanceHand;
    Pops(s, t, MakingRoom(p), q, DropOldest, |q|);
    var s1 := AdvanceHand(s, t);
    LetsGo(s1, t, Swapping(p, q[0]), q[1..], DropOldest, |q|);
    var s2 := AdvanceHand(s1, t);
    Offers(s2, t, LastOffer(p), q[1..], DropOldest, |q|);
    assert Advances(s, t, 3) == Advances(s1, t, 2) == Advances(s2, t, 1) == AdvanceHand(s2, t);
  }

  lemma {:induction false} KeepsWaiting(s: System, t: Thread, p: Packet, q: seq<Packet>, k: nat)
    requires At(s, t, Waiting(p), q, Block, |q|)
    ensures At(Advances(s, t, k), t, Waiting(p), q, Block, |q|)
    decreases k
  {
    hide AdvanceHand;
    if k > 0 {
      Offers(s, t, Waiting(p), q, Block, |q|);
      KeepsWaiting(AdvanceHand(s, t), t, p, q, k - 1);
    }
  }

  lemma {:induction false} KeepsWanting(s: System, t: Thread, c: Capture, q: seq<Packet>, n: nat, k: nat)
    requires At(s, t, Wanting(c), q, Block, n) && s.slots.Valid() && NoSlot(s)
    ensures At(Advances(s, t, k), t, Wanting(c), q, Block, n)
    decreases k
  {
    hide AdvanceHand, Slots.Valid;
    if k > 0 {
      FindsNoSlot(s, t, Wanting(c), q, Block, n);
      KeepsWanting(AdvanceHand(s, t), t, c, q, n, k - 1);
    }
  }

  /** Without a slot, and something queued to take one from. */
  lemma Evicts(s: System, t: Thread, c: Capture, q: seq<Packet>, n: nat) returns (p: Packet)
    requires Inv(s) && At(s, t, Wanting(c), q, DropOldest, n) && NoSlot(s) && q != [] && |q| <= n
    ensures At(Advances(s, t, 6), t, Idle, q[1..] + [p], DropOldest, n) && Info(p) == InfoOf(c)
  {
    SlotsAreValid(s);
    FindsNoSlot(s, t, Wanting(c), q, DropOldest, n);
    AdvanceKeeps(s, t);
    var s1 := AdvanceHand(s, t);
    hide AdvanceHand, Inv, Slots.Valid, NoSlot, InfoOf;
    Pops(s1, t, Evicting(c), q, DropOldest, n);
    AdvanceKeeps(s1, t);
    var s2 := AdvanceHand(s1, t);
    LetsGo(s2, t, Freeing(c, q[0]), q[1..], DropOldest, n);
    FreesASlot(s2, t, Freeing(c, q[0]));
    AdvanceKeeps(s2, t);
    var s3 := AdvanceHand(s2, t);
    SlotsAreValid(s3);
    p := TakesSlot(s3, t, Retrying(c), q[1..], DropOldest, n);
    var s4 := AdvanceHand(s3, t);
    WithRoom(s4, t, p, q[1..], DropOldest, n, 2);
    FourAdvances(s, t, s1, s2, s3, s4);
  }

  lemma FourAdvances(s: System, t: Thread, s1: System, s2: System, s3: System, s4: System)
    requires s1 == AdvanceHand(s, t) && s2 == AdvanceHand(s1, t) && s3 == AdvanceHand(s2, t) && s4 == AdvanceHand(s3, t)
    ensures Advances(s, t, 6) == Advances(s4, t, 2)
  {
    hide AdvanceHand;
    assert Advances(s, t, 6) == Advances(s1, t, 5) == Advances(s2, t, 4);
    assert Advances(s2, t, 4) == Advances(s3, t, 3) == Advances(s4, t, 2);
  }

  lemma SlotsAreValid(s: System)
    requires Inv(s)
    ensures s.slots.Valid() && |s.queue| <= s.conf.capacity
  {
  }

  /** What the publish comes to: the queue, and whether the thread still waits. */
  ghost predicate Matches(s: System, t: Thread, result: (BoundedQueue.Outcome, seq<BoundedQueue.FrameInfo>)) {
    && Infos(s.queue) == result.1
    && (if result.0 == BoundedQueue.Waiting then HandOf(s, t).Wanting? || HandOf(s, t).Waiting?
         else HandOf(s, t) == Idle)
  }

  /** In the interleaving machine a publish that nobody interrupts does what the one-step model
      says, under every policy, with and without a slot, in every state a run can reach. */
  lemma AloneIsAfterPublish(s: System, t: Thread, c: Capture)
    requires Inv(s) && HandOf(s, t) == Idle && c.frame.shape == s.conf.shape && 1 <= s.conf.capacity
    ensures Inv(Alone(s, t, c))
    ensures Matches(Alone(s, t, c), t,
      BoundedQueue.AfterPublish(s.conf.policy, s.conf.capacity, Infos(s.queue), InfoOf(c), NoSlot(s)))
  {
    RunKeeps(s, [Begin(t, c)] + seq(6, _ => Advance(t)));
    AloneIsAdvances(s, t, c);
    SlotsAreValid(s);
    var s0 := SetHand(s, t, Wanting(c));
    SetHandKeeps(s, t, Wanting(c));
    hide Inv, Slots.Valid;
    if NoSlot(s) {
      WithoutASlot(s0, t, c);
    } else {
      WithASlot(s0, t, c);
    }
  }

  lemma WithASlot(s: System, t: Thread, c: Capture)
    requires s.slots.Valid() && HandOf(s, t) == Wanting(c) && !NoSlot(s) && |s.queue| <= s.conf.capacity
      && 1 <= s.conf.capacity
    ensures Matches(Advances(s, t, 6), t,
      BoundedQueue.AfterPublish(s.conf.policy, s.conf.capacity, Infos(s.queue), InfoOf(c), NoSlot(s)))
  {
    hide AdvanceHand, Slots.Valid;
    var q, policy, n := s.queue, s.conf.policy, s.conf.capacity;
    var p := TakesSlot(s, t, Wanting(c), q, policy, n);
    var s1 := AdvanceHand(s, t);
    assert Advances(s, t, 6) == Advances(s1, t, 5);
    if |q| < n {
      WithRoom(s1, t, p, q, policy, n, 5);
      assert Infos(q + [p]) == Infos(q) + [Info(p)];
    } else {
      WhenFull(s1, t, p, q, policy);
      assert Infos(q[1..] + [p]) == Infos(q)[1..] + [Info(p)];
    }
  }

  lemma WithoutASlot(s: System, t: Thread, c: Capture)
    requires Inv(s) && HandOf(s, t) == Wanting(c) && NoSlot(s) && 1 <= s.conf.capacity
    ensures Matches(Advances(s, t, 6), t,
      BoundedQueue.AfterPublish(s.conf.policy, s.conf.capacity, Infos(s.queue), InfoOf(c), NoSlot(s)))
  {
    hide AdvanceHand, Slots.Valid, Inv;
    SlotsAreValid(s);
    var q, policy, n := s.queue, s.conf.policy, s.conf.capacity;
    if policy == Block {
      KeepsWanting(s, t, c, q, n, 6);
    } else if policy == DropOldest && q != [] {
      var p := Evicts(s, t, c, q, n);
      assert Infos(q[1..] + [p]) == Infos(q)[1..] + [Info(p)];
    } else {
      GivesUp(s, t, c);
    }
  }

  lemma GivesUp(s: System, t: Thread, c: Capture)
    requires s.slots.Valid() && HandOf(s, t) == Wanting(c) && NoSlot(s)
    requires s.conf.policy == DropNewest || (s.conf.policy == DropOldest && s.queue == [])
    ensures HandOf(Advances(s, t, 6), t) == Idle && Advances(s, t, 6).queue == s.queue
  {
    hide AdvanceHand, Slots.Valid;
    var policy, n := s.conf.policy, s.conf.capacity;
    FindsNoSlot(s, t, Wanting(c), s.queue, policy, n);
    var s1 := AdvanceHand(s, t);
    assert Advances(s, t, 6) == Advances(s1, t, 5);
    if policy == DropNewest {
      StaysIdle(s1, t, 5);
    } else {
      PopsNothing(s1, t, Evicting(c), policy, n);
      assert Advances(s1, t, 5) == Advances(AdvanceHand(s1, t), t, 4);
      StaysIdle(AdvanceHand(s1, t), t, 4);
    }
  }

  // ---------------------------------------------------------------- the run loop's steps

  lemma {:induction false} InfosKept(queue: seq<Packet>, camera: string)
    ensures Infos(Filter(queue, NotFrom(camera))) == BoundedQueue.Without(Infos(queue), camera)
  {
    if queue != [] {
      InfosKept(queue[1..], camera);
      var rest := Filter(queue[1..], NotFrom(camera));
      assert Infos(queue)[1..] == Infos(queue[1..]) && Infos(queue)[0] == Info(queue[0]);
      assert Infos([queue[0]] + rest) == [Info(queue[0])] + Infos(rest);
      assert [] + rest == rest && [] + Infos(rest) == Infos(rest);
    }
  }

  /** A get takes the head of the queue, as in the one-step model. */
  lemma GetTakesTheHead(s: System)
    requires s.inbox.None? && s.queue != []
    ensures Step(s, Get).inbox == Some(s.queue[0]) && Infos(Step(s, Get).queue) == Infos(s.queue)[1..]
  {
  }

  /** A discard takes all and only a camera's packets out of the queue, as in the one-step model, and
      they await release. */
  lemma DiscardTakesTheCamera(s: System, camera: string, p: Packet)
    ensures Infos(Step(s, Discard(camera)).queue) == BoundedQueue.Without(Infos(s.queue), camera)
    ensures Step(s, Discard(camera)).trash[p] == s.trash[p] + if p.camera == camera then multiset(s.queue)[p] else 0
  {
    hide Filter, Infos, BoundedQueue.Without;
    InfosKept(s.queue, camera);
    FilterCount(s.queue, From(camera), p);
  }

  /** A submitted packet is its camera's then, and the one it replaces, if any, awaits release. */
  lemma SubmitPutsThePacket(s: System, p: Packet)
    requires s.inbox == Some(p) && s.trash == multiset{}
    ensures Step(s, Submit).latest == s.latest[p.camera := p] && Step(s, Submit).inbox.None?
    ensures Step(s, Submit).trash ==
      if p.camera in s.latest && s.latest[p.camera] != p then multiset{s.latest[p.camera]} else multiset{}
  {
  }
}
