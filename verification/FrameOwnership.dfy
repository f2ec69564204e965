/** Capture threads, the run loop and the shared slots, interleaved at every lock boundary.

    `publish` is cut into the operations that each take a lock of their own: acquire, copy,
    offer to the queue, pop the oldest, release. Between two of them any other thread may act,
    so what a thread holds meanwhile is part of the state: its hand. */
module FrameOwnership {
  import opened Collections
  import opened Contracts
  import opened SlotPool

  type Thread = nat

  /** A frame as the capture thread made it, before it has a slot. */
  datatype Capture = Capture(camera: string, sequence: int, frame: Frame)

  /** A packet over a slot. The ticket tells apart two packets that use a slot one after the
      other, as object identity does in the program. */
  datatype Packet = Packet(ticket: nat, camera: string, sequence: int, slot: nat, frame: Frame)

  /** Where a capture thread stands inside `publish`, and what it holds there. */
  datatype Hand =
    | Idle
    | Wanting(capture: Capture)
    | Evicting(capture: Capture)
    | Freeing(capture: Capture, victim: Packet)
    | Retrying(capture: Capture)
    | Writing(packet: Packet)
    | Offering(packet: Packet)
    | Waiting(packet: Packet)
    | MakingRoom(packet: Packet)
    | Swapping(packet: Packet, victim: Packet)
    | LastOffer(packet: Packet)
    | Rejecting(packet: Packet)

  datatype Config = Config(policy: DropPolicy, capacity: nat, shape: Shape, blank: Frame)

  /** `inbox` is the packet the run loop took and has not dealt with; `trash` the packets it is taking
      out of the queue or the synchronizer and still has to release. Ownership leaves the group at
      the start of a submit or a close: the program releases a packet first and forgets it then,
      but nothing looks at what the synchronizer holds in between. */
  datatype System = System(
    conf: Config,
    slots: Slots,
    queue: seq<Packet>,
    hands: map<Thread, Hand>,
    inbox: Option<Packet>,
    latest: map<string, Packet>,
    trash: multiset<Packet>,
    live: set<Packet>,
    nextTicket: nat)

  datatype Action =
    | Begin(thread: Thread, capture: Capture)
    | Advance(thread: Thread)
    | Get
    | DropInactive
    | Submit
    | CloseGroup
    | RemoveFromGroup(camera: string)
    | Discard(camera: string)
    | ReleaseTrash(packet: Packet)

  predicate IsCaptureAction(a: Action) {
    a.Begin? || a.Advance?
  }

  function Init(conf: Config, maxSlots: nat): System {
    System(conf, Slots(maxSlots, map[], [], {}, 0), [], map[], None, map[], multiset{}, {}, 0)
  }

  function HandOf(s: System, t: Thread): Hand {
    if t in s.hands then s.hands[t] else Idle
  }

  function SetHand(s: System, t: Thread, h: Hand): System {
    s.(hands := s.hands[t := h])
  }

  /** `FramePacket.release`: nothing the second time; the first time the slot goes back. */
  function Release(s: System, p: Packet): System {
    if p !in s.live then s
    else s.(live := s.live - {p}, slots := s.slots.Release(p.slot))
  }

  /** An attempt to get a slot; without one the thread goes to `otherwise`. */
  function TryAcquire(s: System, t: Thread, c: Capture, otherwise: Hand): System {
    var (slot, slots) := s.slots.Acquire(s.conf.blank);
    if slot.None? then SetHand(s, t, otherwise)
    else
      var p := Packet(s.nextTicket, c.camera, c.sequence, slot.value, c.frame);
      SetHand(s.(slots := slots, live := s.live + {p}, nextTicket := s.nextTicket + 1), t, Writing(p))
  }

  /** `put_nowait`: queue the packet, or go to `otherwise` when the queue is full. */
  function TryPut(s: System, t: Thread, p: Packet, otherwise: Hand): System {
    if |s.queue| < s.conf.capacity then SetHand(s.(queue := s.queue + [p]), t, Idle)
    else SetHand(s, t, otherwise)
  }

  /** Where a thread goes when an acquire finds no slot: only the first one may wait or evict. */
  function WithoutSlot(policy: DropPolicy, h: Hand): Hand
    requires h.Wanting? || h.Retrying?
  {
    if h.Retrying? || policy == DropNewest then Idle
    else if policy == DropOldest then Evicting(h.capture)
    else h
  }

  /** Where a thread goes when its packet finds the queue full. */
  function WithoutRoom(policy: DropPolicy, h: Hand): Hand
    requires h.Offering? || h.Waiting? || h.LastOffer?
  {
    if h.Waiting? then h
    else if h.LastOffer? || policy == DropNewest then Rejecting(h.packet)
    else if policy == DropOldest then MakingRoom(h.packet)
    else Waiting(h.packet)
  }

  /** Pop the oldest packet, to free its slot or its place; an empty queue ends the first attempt. */
  function PopOldest(s: System, t: Thread, h: Hand): System
    requires h.Evicting? || h.MakingRoom?
  {
    if s.queue == [] then SetHand(s, t, if h.Evicting? then Idle else LastOffer(h.packet))
    else
      SetHand(s.(queue := s.queue[1..]), t,
              if h.Evicting? then Freeing(h.capture, s.queue[0]) else Swapping(h.packet, s.queue[0]))
  }

  /** Release the packet that was popped, or the thread's own one when it is turned away. */
  function ReleaseInHand(s: System, t: Thread, h: Hand): System
    requires h.Freeing? || h.Swapping? || h.Rejecting?
  {
    match h
    case Freeing(c, victim) => SetHand(Release(s, victim), t, Retrying(c))
    case Swapping(p, victim) => SetHand(Release(s, victim), t, LastOffer(p))
    case Rejecting(p) => SetHand(Release(s, p), t, Idle)
  }

  /** Copy the pixels into the slot. */
  function CopyIn(s: System, t: Thread, p: Packet): System {
    SetHand(s.(slots := s.slots.Write(p.slot, p.frame)), t, Offering(p))
  }

  /** The next operation of a thread inside `publish` and `_prepare_packet`. */
  function AdvanceHand(s: System, t: Thread): System {
    var h := HandOf(s, t);
    if h.Wanting? || h.Retrying? then TryAcquire(s, t, h.capture, WithoutSlot(s.conf.policy, h))
    else if h.Evicting? || h.MakingRoom? then PopOldest(s, t, h)
    else if h.Freeing? || h.Swapping? || h.Rejecting? then ReleaseInHand(s, t, h)
    else if h.Writing? then CopyIn(s, t, h.packet)
    else if h.Offering? || h.Waiting? || h.LastOffer? then TryPut(s, t, h.packet, WithoutRoom(s.conf.policy, h))
    else s
  }

  function From(camera: string): Packet -> bool {
    (p: Packet) => p.camera == camera
  }

  function NotFrom(camera: string): Packet -> bool {
    (p: Packet) => p.camera != camera
  }

  /** One action. An action that cannot happen in `s` leaves it alone: the run loop is one
      thread, so it starts nothing while it still has a packet or releases in hand. */
  ghost function Step(s: System, a: Action): System {
    match a
    case Begin(t, c) =>
      if HandOf(s, t) == Idle && c.frame.shape == s.conf.shape then SetHand(s, t, Wanting(c)) else s
    case Advance(t) => AdvanceHand(s, t)
    case Get =>
      if s.inbox.Some? || s.queue == [] then s
      else s.(inbox := Some(s.queue[0]), queue := s.queue[1..])
    case DropInactive =>
      if s.inbox.None? then s else Release(s, s.inbox.value).(inbox := None)
    case Submit =>
      if s.inbox.None? || s.trash != multiset{} then s
      else
        var p := s.inbox.value;
        var previous := if p.camera in s.latest && s.latest[p.camera] != p
                        then multiset{s.latest[p.camera]} else multiset{};
        s.(inbox := None, latest := s.latest[p.camera := p], trash := previous)
    case CloseGroup => s.(latest := map[], trash := s.trash + Gather(s.latest, One))
    case RemoveFromGroup(c) =>
      if c !in s.latest then s
      else s.(latest := s.latest - {c}, trash := s.trash + multiset{s.latest[c]})
    case Discard(c) =>
      s.(queue := Filter(s.queue, NotFrom(c)), trash := s.trash + multiset(Filter(s.queue, From(c))))
    case ReleaseTrash(p) =>
      if p !in s.trash then s else Release(s, p).(trash := s.trash - multiset{p})
  }

  ghost function Run(s: System, actions: seq<Action>): System
    decreases |actions|
  {
    if actions == [] then s else Run(Step(s, actions[0]), actions[1..])
  }

  // ---------------------------------------------------------------- who holds what

  function One(p: Packet): multiset<Packet> {
    multiset{p}
  }

  function InHand(h: Hand): multiset<Packet> {
    match h
    case Idle | Wanting(_) | Evicting(_) | Retrying(_) => multiset{}
    case Freeing(_, v) => multiset{v}
    case Swapping(p, v) => multiset{p} + multiset{v}
    case Writing(p) => multiset{p}
    case Offering(p) => multiset{p}
    case Waiting(p) => multiset{p}
    case MakingRoom(p) => multiset{p}
    case LastOffer(p) => multiset{p}
    case Rejecting(p) => multiset{p}
  }

  function InInbox(o: Option<Packet>): multiset<Packet> {
    if o.None? then multiset{} else multiset{o.value}
  }

  /** How many holders a packet has: queue places, threads, the inbox, the synchronizer's
      cameras and pending releases. */
  ghost function Holders(s: System, p: Packet): nat {
    multiset(s.queue)[p] + Gather(s.hands, InHand)[p] + InInbox(s.inbox)[p] + Gather(s.latest, One)[p] + s.trash[p]
  }

  /** The packets whose pixels are still being copied in. */
  ghost function Unwritten(hands: map<Thread, Hand>): set<Packet> {
    set t | t in hands && hands[t].Writing? :: hands[t].packet
  }

  /** The slots in use are those of the unreleased packets, one packet to a slot. */
  ghost predicate Owns(inUse: set<nat>, live: set<Packet>) {
    && (forall p :: p in live ==> p.slot in inUse)
    && (forall k :: k in inUse ==> exists p :: p in live && p.slot == k)
    && (forall p, q :: p in live && q in live && p.slot == q.slot ==> p == q)
  }

  /** Every slot shows the pixels of its packet, once they are copied in. */
  ghost predicate Shows(blocks: map<nat, Frame>, live: set<Packet>, unwritten: set<Packet>) {
    forall p :: p in live && p !in unwritten ==> p.slot in blocks && blocks[p.slot] == p.frame
  }

  ghost predicate Agree(slots: Slots, live: set<Packet>, unwritten: set<Packet>, nextTicket: nat) {
    && slots.Valid()
    && Owns(slots.inUse, live)
    && Shows(slots.blocks, live, unwritten)
    && (forall p :: p in live ==> p.ticket < nextTicket)
  }

  /** The unreleased packets are held, each by exactly one holder. */
  ghost predicate Accounted(s: System) {
    forall p :: Holders(s, p) == if p in s.live then 1 else 0
  }

  ghost predicate SlotsAgree(s: System) {
    Agree(s.slots, s.live, Unwritten(s.hands), s.nextTicket)
  }

  /** The ownership rule. */
  ghost predicate Inv(s: System) {
    && SlotsAgree(s)
    && Accounted(s)
    && |s.queue| <= s.conf.capacity
    && (forall c :: c in s.latest ==> s.latest[c].camera == c)
  }

  // ---------------------------------------------------------------- slots, packets and pixels

  lemma OwnsOneMore(inUse: set<nat>, live: set<Packet>, p: Packet)
    requires Owns(inUse, live) && p.slot !in inUse
    ensures p !in live && Owns(inUse + {p.slot}, live + {p})
  {
    assert p in live + {p};
    forall k | k in inUse ensures exists q :: q in live + {p} && q.slot == k {
      var q :| q in live && q.slot == k;
      assert q in live + {p};
    }
  }

  lemma OwnsOneLess(inUse: set<nat>, live: set<Packet>, p: Packet)
    requires Owns(inUse, live) && p in live
    ensures Owns(inUse - {p.slot}, live - {p})
  {
    forall k | k in inUse - {p.slot} ensures exists q :: q in live - {p} && q.slot == k {
      var q :| q in live && q.slot == k;
      assert q in live - {p};
    }
  }

  lemma AgreeAfterAcquire(slots: Slots, live: set<Packet>, unwritten: set<Packet>, n: nat, blank: Frame, p: Packet)
    requires Agree(slots, live, unwritten, n)
    requires p.ticket == n && slots.Acquire(blank).0 == Some(p.slot)
    ensures p !in live
    ensures Agree(slots.Acquire(blank).1, live + {p}, unwritten + {p}, n + 1)
  {
    hide Slots.Acquire, Slots.Valid, Owns;
    slots.AcquireTakesAFreeSlot(blank);
    OwnsOneMore(slots.inUse, live, p);
  }

  lemma AgreeAfterWrite(slots: Slots, live: set<Packet>, unwritten: set<Packet>, n: nat, p: Packet)
    requires Agree(slots, live, unwritten, n) && p in live
    ensures Agree(slots.Write(p.slot, p.frame), live, unwritten - {p}, n)
  {
    assert p.slot in slots.inUse;
    assert slots.Write(p.slot, p.frame).blocks.Keys == slots.blocks.Keys;
  }

  lemma AgreeAfterRelease(slots: Slots, live: set<Packet>, unwritten: set<Packet>, n: nat, p: Packet)
    requires Agree(slots, live, unwritten, n) && p in live
    ensures Agree(slots.Release(p.slot), live - {p}, unwritten, n)
  {
    slots.ReleaseReturnsTheSlot(p.slot);
    OwnsOneLess(slots.inUse, live, p);
  }

  lemma AgreeWhileMoreUnwritten(slots: Slots, live: set<Packet>, unwritten: set<Packet>, more: set<Packet>, n: nat)
    requires Agree(slots, live, unwritten, n) && unwritten <= more
    ensures Agree(slots, live, more, n)
  {
  }

  lemma UnwrittenAfterSet(hands: map<Thread, Hand>, t: Thread, h: Hand)
    ensures var now := if t in hands && hands[t].Writing? then {hands[t].packet} else {};
            var next := if h.Writing? then {h.packet} else {};
            Unwritten(hands) - now + next <= Unwritten(hands[t := h])
  {
    var after := hands[t := h];
    forall p | p in Unwritten(hands) && !(t in hands && hands[t] == Writing(p)) ensures p in Unwritten(after) {
      var u :| u in hands && hands[u].Writing? && hands[u].packet == p;
      assert after[u] == hands[u];
    }
    if h.Writing? {
      assert after[t] == h;
    }
  }

  lemma SetHandAgrees(s: System, t: Thread, h: Hand)
    requires SlotsAgree(s) && !HandOf(s, t).Writing?
    ensures SlotsAgree(SetHand(s, t, h))
  {
    UnwrittenAfterSet(s.hands, t, h);
    AgreeWhileMoreUnwritten(s.slots, s.live, Unwritten(s.hands), Unwritten(SetHand(s, t, h).hands), s.nextTicket);
  }

  lemma WriteAgrees(s: System, t: Thread, p: Packet)
    requires SlotsAgree(s) && HandOf(s, t) == Writing(p) && p in s.live
    ensures SlotsAgree(SetHand(s.(slots := s.slots.Write(p.slot, p.frame)), t, Offering(p)))
  {
    AgreeAfterWrite(s.slots, s.live, Unwritten(s.hands), s.nextTicket, p);
    UnwrittenAfterSet(s.hands, t, Offering(p));
    AgreeWhileMoreUnwritten(s.slots.Write(p.slot, p.frame), s.live, Unwritten(s.hands) - {p},
                            Unwritten(s.hands[t := Offering(p)]), s.nextTicket);
  }

  lemma TakeAgrees(s: System, t: Thread, p: Packet)
    requires SlotsAgree(s) && !HandOf(s, t).Writing?
    requires s.slots.Acquire(s.conf.blank).0 == Some(p.slot) && p.ticket == s.nextTicket
    ensures p !in s.live
    ensures SlotsAgree(SetHand(s.(slots := s.slots.Acquire(s.conf.blank).1, live := s.live + {p},
                                  nextTicket := s.nextTicket + 1),
                               t, Writing(p)))
  {
    AgreeAfterAcquire(s.slots, s.live, Unwritten(s.hands), s.nextTicket, s.conf.blank, p);
    UnwrittenAfterSet(s.hands, t, Writing(p));
    AgreeWhileMoreUnwritten(s.slots.Acquire(s.conf.blank).1, s.live + {p}, Unwritten(s.hands) + {p},
                            Unwritten(s.hands[t := Writing(p)]), s.nextTicket + 1);
  }

  // ---------------------------------------------------------------- every packet is held once

  lemma SetHandMoves(s: System, t: Thread, h: Hand, p: Packet)
    ensures Holders(SetHand(s, t, h), p) + InHand(HandOf(s, t))[p] == Holders(s, p) + InHand(h)[p]
  {
    GatherUpdate(s.hands, InHand, t, h, p);
  }

  lemma PopMoves(q: seq<Packet>, p: Packet)
    requires q != []
    ensures multiset(q)[p] == multiset(q[1..])[p] + multiset{q[0]}[p]
  {
    assert q == [q[0]] + q[1..];
  }

  /** Everything in a hand, in the inbox or in the trash is held; so are the synchronizer's. */
  lemma PartsAreHeld(s: System, t: Thread, c: string, p: Packet)
    ensures InHand(HandOf(s, t))[p] <= Holders(s, p)
    ensures c in s.latest ==> multiset{s.latest[c]}[p] <= Holders(s, p)
  {
    if t in s.hands {
      GatherRemove(s.hands, InHand, t, p);
    }
    if c in s.latest {
      GatherRemove(s.latest, One, c, p);
    }
  }

  lemma SetHandAccounts(s: System, t: Thread, h: Hand)
    requires Accounted(s) && InHand(HandOf(s, t)) == InHand(h)
    ensures Accounted(SetHand(s, t, h))
  {
    forall p ensures Holders(SetHand(s, t, h), p) == if p in s.live then 1 else 0 {
      SetHandMoves(s, t, h, p);
    }
  }

  // ---------------------------------------------------------------- the operations of publish

  lemma SetHandKeeps(s: System, t: Thread, h: Hand)
    requires Inv(s) && !HandOf(s, t).Writing? && InHand(HandOf(s, t)) == InHand(h)
    ensures Inv(SetHand(s, t, h))
  {
    SetHandAgrees(s, t, h);
    SetHandAccounts(s, t, h);
  }

  lemma TakeKeeps(s: System, t: Thread, p: Packet)
    requires Inv(s) && InHand(HandOf(s, t)) == multiset{}
    requires s.slots.Acquire(s.conf.blank).0 == Some(p.slot) && p.ticket == s.nextTicket
    ensures Inv(SetHand(s.(slots := s.slots.Acquire(s.conf.blank).1, live := s.live + {p},
                           nextTicket := s.nextTicket + 1),
                        t, Writing(p)))
  {
    TakeAgrees(s, t, p);
    hide Agree, Slots.Acquire;
    var s1 := s.(slots := s.slots.Acquire(s.conf.blank).1, live := s.live + {p}, nextTicket := s.nextTicket + 1);
    TakeAccounts(s, s1, t, p);
  }

  lemma TakeAccounts(s: System, s1: System, t: Thread, p: Packet)
    requires Accounted(s) && InHand(HandOf(s, t)) == multiset{} && p !in s.live
    requires s1 == s.(slots := s1.slots, live := s.live + {p}, nextTicket := s1.nextTicket)
    ensures Accounted(SetHand(s1, t, Writing(p)))
  {
    forall q ensures Holders(SetHand(s1, t, Writing(p)), q) == if q in s1.live then 1 else 0 {
      SetHandMoves(s1, t, Writing(p), q);
      assert Holders(s1, q) == Holders(s, q);
    }
  }

  lemma TryAcquireKeeps(s: System, t: Thread, c: Capture, otherwise: Hand)
    requires Inv(s)
    requires InHand(HandOf(s, t)) == multiset{} == InHand(otherwise)
    ensures Inv(TryAcquire(s, t, c, otherwise))
  {
    hide Inv, Slots.Acquire;
    var (slot, slots) := s.slots.Acquire(s.conf.blank);
    if slot.None? {
      SetHandKeeps(s, t, otherwise);
    } else {
      TakeKeeps(s, t, Packet(s.nextTicket, c.camera, c.sequence, slot.value, c.frame));
    }
  }

  lemma TryPutKeeps(s: System, t: Thread, p: Packet, otherwise: Hand)
    requires Inv(s) && !HandOf(s, t).Writing?
    requires InHand(HandOf(s, t)) == multiset{p} == InHand(otherwise)
    ensures Inv(TryPut(s, t, p, otherwise))
  {
    if |s.queue| < s.conf.capacity {
      var s1 := s.(queue := s.queue + [p]);
      SetHandAgrees(s1, t, Idle);
      forall q ensures Holders(SetHand(s1, t, Idle), q) == if q in s.live then 1 else 0 {
        SetHandMoves(s1, t, Idle, q);
        assert Holders(s1, q) == Holders(s, q) + multiset{p}[q];
      }
    } else {
      SetHandKeeps(s, t, otherwise);
    }
  }

  lemma PopIntoHandKeeps(s: System, t: Thread, h: Hand)
    requires Inv(s) && s.queue != [] && !HandOf(s, t).Writing?
    requires InHand(h) == InHand(HandOf(s, t)) + multiset{s.queue[0]}
    ensures Inv(SetHand(s.(queue := s.queue[1..]), t, h))
  {
    hide Agree, Holders;
    SetHandAgrees(s.(queue := s.queue[1..]), t, h);
    PopIntoHandAccounts(s, s.(queue := s.queue[1..]), t, h);
  }

  lemma PopIntoHandAccounts(s: System, s1: System, t: Thread, h: Hand)
    requires Accounted(s) && s.queue != [] && s1 == s.(queue := s.queue[1..])
    requires InHand(h) == InHand(HandOf(s, t)) + multiset{s.queue[0]}
    ensures Accounted(SetHand(s1, t, h))
  {
    forall q ensures Holders(SetHand(s1, t, h), q) == if q in s.live then 1 else 0 {
      SetHandMoves(s1, t, h, q);
      PopMoves(s.queue, q);
      assert InHand(h)[q] == InHand(HandOf(s, t))[q] + multiset{s.queue[0]}[q];
    }
  }

  lemma ReleaseFromHandKeeps(s: System, t: Thread, p: Packet, h: Hand)
    requires Inv(s) && !HandOf(s, t).Writing?
    requires InHand(HandOf(s, t)) == InHand(h) + multiset{p}
    ensures Inv(SetHand(Release(s, p), t, h))
  {
    PartsAreHeld(s, t, "", p);
    assert InHand(HandOf(s, t))[p] >= 1;
    ReleaseFromHandAccounts(s, t, p, h);
    AgreeAfterRelease(s.slots, s.live, Unwritten(s.hands), s.nextTicket, p);
    hide Agree;
    SetHandAgrees(Release(s, p), t, h);
  }

  lemma ReleaseFromHandAccounts(s: System, t: Thread, p: Packet, h: Hand)
    requires Accounted(s) && InHand(HandOf(s, t)) == InHand(h) + multiset{p} && p in s.live
    ensures Accounted(SetHand(Release(s, p), t, h))
  {
    var s1 := Release(s, p);
    forall q ensures Holders(SetHand(s1, t, h), q) == if q in s1.live then 1 else 0 {
      SetHandMoves(s1, t, h, q);
      assert Holders(s1, q) == Holders(s, q);
      assert (InHand(h) + multiset{p})[q] == InHand(h)[q] + multiset{p}[q];
    }
  }

  lemma CopyInKeeps(s: System, t: Thread, p: Packet)
    requires Inv(s) && HandOf(s, t) == Writing(p)
    ensures Inv(CopyIn(s, t, p))
  {
    hide Agree;
    InHandIsLive(s, t, p);
    WriteAgrees(s, t, p);
    SetHandAccounts(s.(slots := s.slots.Write(p.slot, p.frame)), t, Offering(p));
  }

  lemma InHandIsLive(s: System, t: Thread, p: Packet)
    requires Accounted(s) && InHand(HandOf(s, t))[p] > 0
    ensures p in s.live
  {
    PartsAreHeld(s, t, "", p);
    assert Holders(s, p) > 0;
  }

  lemma PopOldestKeeps(s: System, t: Thread, h: Hand)
    requires Inv(s) && HandOf(s, t) == h && (h.Evicting? || h.MakingRoom?)
    ensures Inv(PopOldest(s, t, h))
  {
    hide Inv, SetHand;
    if s.queue == [] {
      SetHandKeeps(s, t, if h.Evicting? then Idle else LastOffer(h.packet));
    } else {
      PopIntoHandKeeps(s, t, if h.Evicting? then Freeing(h.capture, s.queue[0]) else Swapping(h.packet, s.queue[0]));
    }
  }

  lemma ReleaseInHandKeeps(s: System, t: Thread, h: Hand)
    requires Inv(s) && HandOf(s, t) == h && (h.Freeing? || h.Swapping? || h.Rejecting?)
    ensures Inv(ReleaseInHand(s, t, h))
  {
    hide Inv, SetHand, Release;
    match h
    case Freeing(c, victim) => ReleaseFromHandKeeps(s, t, victim, Retrying(c));
    case Swapping(p, victim) => ReleaseFromHandKeeps(s, t, victim, LastOffer(p));
    case Rejecting(p) => ReleaseFromHandKeeps(s, t, p, Idle);
  }

  lemma {:induction false} AdvanceKeeps(s: System, t: Thread)
    requires Inv(s)
    ensures Inv(AdvanceHand(s, t))
  {
    hide Inv, TryAcquire, TryPut, PopOldest, ReleaseInHand, CopyIn;
    var h := HandOf(s, t);
    if h.Wanting? || h.Retrying? {
      TryAcquireKeeps(s, t, h.capture, WithoutSlot(s.conf.policy, h));
    } else if h.Evicting? || h.MakingRoom? {
      PopOldestKeeps(s, t, h);
    } else if h.Freeing? || h.Swapping? || h.Rejecting? {
      ReleaseInHandKeeps(s, t, h);
    } else if h.Writing? {
      CopyInKeeps(s, t, h.packet);
    } else if h.Offering? || h.Waiting? || h.LastOffer? {
      TryPutKeeps(s, t, h.packet, WithoutRoom(s.conf.policy, h));
    }
  }

  // ---------------------------------------------------------------- the run loop's operations

  lemma DiscardSplits(q: seq<Packet>, camera: string, p: Packet)
    ensures multiset(q)[p] == multiset(Filter(q, From(camera)))[p] + multiset(Filter(q, NotFrom(camera)))[p]
    ensures |Filter(q, NotFrom(camera))| <= |q|
  {
    FilterCount(q, From(camera), p);
    FilterCount(q, NotFrom(camera), p);
    FilterIsExact(q, NotFrom(camera));
  }

  /** Packets change holder; none is created or released. */
  ghost predicate Moves(s: System, s': System) {
    && s' == s.(queue := s'.queue, inbox := s'.inbox, latest := s'.latest, trash := s'.trash)
    && |s'.queue| <= |s.queue|
    && (forall c :: c in s'.latest ==> s'.latest[c].camera == c)
    && (forall q :: Holders(s', q) == Holders(s, q))
  }

  /** One packet leaves its holder and is released. */
  ghost predicate Releases(s: System, s': System, p: Packet) {
    && p in s.live
    && s' == Release(s, p).(inbox := s'.inbox, trash := s'.trash)
    && (forall q :: Holders(s', q) + multiset{p}[q] == Holders(s, q))
  }

  lemma MovesKeeps(s: System, s': System)
    requires Inv(s) && Moves(s, s')
    ensures Inv(s')
  {
    hide Agree, Holders;
  }

  lemma ReleasesKeeps(s: System, s': System, p: Packet)
    requires Inv(s) && Releases(s, s', p)
    ensures Inv(s')
  {
    AgreeAfterRelease(s.slots, s.live, Unwritten(s.hands), s.nextTicket, p);
    ReleasesAccounts(s, s', p);
    hide Agree, Holders, Accounted;
  }

  lemma ReleasesAccounts(s: System, s': System, p: Packet)
    requires Accounted(s) && Releases(s, s', p)
    ensures Accounted(s')
  {
    forall q ensures Holders(s', q) == if q in s'.live then 1 else 0 {
      assert Holders(s', q) + multiset{p}[q] == Holders(s, q);
    }
  }

  /** The packet held before a submit is another one: the submitted packet has no holder but the inbox. */
  lemma InboxIsNotHeldByTheGroup(s: System, p: Packet)
    requires Accounted(s) && s.inbox == Some(p)
    ensures p.camera in s.latest ==> s.latest[p.camera] != p
  {
    if p.camera in s.latest {
      GatherRemove(s.latest, One, p.camera, p);
      assert Holders(s, p) <= 1;
    }
  }

  lemma SubmitMoves(s: System, s': System, p: Packet)
    requires s.inbox == Some(p) && s.trash == multiset{}
    requires forall c :: c in s.latest ==> s.latest[c].camera == c
    requires s' == s.(inbox := None, latest := s.latest[p.camera := p],
                      trash := if p.camera in s.latest then multiset{s.latest[p.camera]} else multiset{})
    ensures Moves(s, s')
  {
    forall q ensures Holders(s', q) == Holders(s, q) {
      GatherUpdate(s.latest, One, p.camera, p, q);
    }
  }

  lemma GetMoves(s: System, s': System)
    requires s.inbox == None && s.queue != []
    requires forall c :: c in s.latest ==> s.latest[c].camera == c
    requires s' == s.(inbox := Some(s.queue[0]), queue := s.queue[1..])
    ensures Moves(s, s')
  {
    forall q ensures Holders(s', q) == Holders(s, q) {
      PopMoves(s.queue, q);
    }
  }

  lemma CloseGroupMoves(s: System, s': System)
    requires s' == s.(latest := map[], trash := s.trash + Gather(s.latest, One))
    ensures Moves(s, s')
  {
  }

  lemma RemoveFromGroupMoves(s: System, s': System, c: string)
    requires c in s.latest && forall d :: d in s.latest ==> s.latest[d].camera == d
    requires s' == s.(latest := s.latest - {c}, trash := s.trash + multiset{s.latest[c]})
    ensures Moves(s, s')
  {
    forall q ensures Holders(s', q) == Holders(s, q) {
      GatherRemove(s.latest, One, c, q);
    }
  }

  lemma DiscardMoves(s: System, s': System, c: string)
    requires forall d :: d in s.latest ==> s.latest[d].camera == d
    requires s' == s.(queue := Filter(s.queue, NotFrom(c)), trash := s.trash + multiset(Filter(s.queue, From(c))))
    ensures Moves(s, s')
  {
    forall q ensures Holders(s', q) == Holders(s, q) && |s'.queue| <= |s.queue| {
      DiscardSplits(s.queue, c, q);
    }
    DiscardSplits(s.queue, c, Packet(0, c, 0, 0, s.conf.blank));
  }

  lemma DropReleases(s: System, s': System, p: Packet)
    requires Accounted(s) && s.inbox == Some(p) && s' == Release(s, p).(inbox := None)
    ensures Releases(s, s', p)
  {
    assert Holders(s, p) > 0;
  }

  lemma TrashReleases(s: System, s': System, p: Packet)
    requires Accounted(s) && p in s.trash && s' == Release(s, p).(trash := s.trash - multiset{p})
    ensures Releases(s, s', p)
  {
    assert Holders(s, p) > 0;
  }

  /** What each operation of the run loop does to the holdings. */
  lemma RunLoopStepMovesOrReleases(s: System, a: Action)
    requires Inv(s) && !IsCaptureAction(a)
    ensures var s' := Step(s, a); s' == s || Moves(s, s') || exists p :: Releases(s, s', p)
  {
    hide SlotsAgree, Accounted, Moves, Releases, Gather, Release;
    var s' := Step(s, a);
    if s' != s {
      match a
      case Get => GetMoves(s, s');
      case DropInactive => DropReleases(s, s', s.inbox.value);
      case Submit =>
        InboxIsNotHeldByTheGroup(s, s.inbox.value);
        SubmitMoves(s, s', s.inbox.value);
      case CloseGroup => CloseGroupMoves(s, s');
      case RemoveFromGroup(c) => RemoveFromGroupMoves(s, s', c);
      case Discard(c) => DiscardMoves(s, s', c);
      case ReleaseTrash(p) => TrashReleases(s, s', p);
    }
  }

  lemma {:induction false} StepKeeps(s: System, a: Action)
    requires Inv(s)
    ensures Inv(Step(s, a))
  {
    hide Inv, Moves, Releases;
    match a
    case Begin(t, c) => if HandOf(s, t) == Idle { SetHandKeeps(s, t, Wanting(c)); }
    case Advance(t) => AdvanceKeeps(s, t);
    case _ =>
      hide Step;
      var s' := Step(s, a);
      RunLoopStepMovesOrReleases(s, a);
      if Moves(s, s') {
        MovesKeeps(s, s');
      } else if s' != s {
        var p :| Releases(s, s', p);
        ReleasesKeeps(s, s', p);
      }
  }

  // ---------------------------------------------------------------- over whole runs

  lemma InitIsGood(conf: Config, maxSlots: nat)
    ensures Inv(Init(conf, maxSlots))
  {
  }

  lemma {:induction false} RunKeeps(s: System, actions: seq<Action>)
    requires Inv(s)
    ensures Inv(Run(s, actions))
    decreases |actions|
  {
    if actions != [] {
      StepKeeps(s, actions[0]);
      RunKeeps(Step(s, actions[0]), actions[1..]);
    }
  }

  /** Exact ownership: from the start, under every policy and whatever the threads' interleaving,
      each unreleased packet has exactly one holder and nothing else is held, and the slots in use
      are exactly their slots, one packet to a slot, never more than the pool may have. */
  lemma {:induction false} ExactOwnership(conf: Config, maxSlots: nat, actions: seq<Action>)
    ensures var s := Run(Init(conf, maxSlots), actions);
            && (forall p :: Holders(s, p) == if p in s.live then 1 else 0)
            && (forall p :: p in s.live ==> p.slot in s.slots.inUse)
            && (forall k :: k in s.slots.inUse ==> exists p :: p in s.live && p.slot == k)
            && (forall p, q :: p in s.live && q in s.live && p.slot == q.slot ==> p == q)
            && NoDuplicates(s.slots.available)
            && SetOf(s.slots.available) !! s.slots.inUse
            && |s.slots.inUse| <= s.slots.maxSlots
  {
    var start := Init(conf, maxSlots);
    InitIsGood(conf, maxSlots);
    RunKeeps(start, actions);
    Run(start, actions).slots.Partition();
  }

  /** A packet seen outside its writer's hand has its pixels. */
  lemma HeldElsewhereIsWritten(s: System, p: Packet)
    requires Inv(s)
    requires p in s.queue || s.inbox == Some(p) || p in s.trash || (p.camera in s.latest && s.latest[p.camera] == p)
    ensures p in s.live && p !in Unwritten(s.hands)
  {
    hide SlotsAgree, Gather;
    PartsAreHeld(s, 0, p.camera, p);
    if p.camera in s.latest {
      GatherRemove(s.latest, One, p.camera, p);
    }
    forall t | t in s.hands ensures s.hands[t] != Writing(p) {
      GatherRemove(s.hands, InHand, t, p);
    }
  }

  /** A packet the state has known is not unreleased again once it is released. */
  ghost predicate NotRevived(s: System, s': System, p: Packet) {
    s.nextTicket <= s'.nextTicket && (p in s'.live ==> p in s.live)
  }

  lemma StepDoesNotRevive(s: System, a: Action, p: Packet)
    requires p.ticket < s.nextTicket
    ensures NotRevived(s, Step(s, a), p)
  {
    hide Slots.Acquire, Slots.Release, Slots.Write, Gather, Filter;
    if a.Advance? {
      assert NotRevived(s, AdvanceHand(s, a.thread), p);
    }
  }

  /** Once a packet's pixels are in, no thread goes back to copying them. */
  lemma StepLeavesWritten(s: System, a: Action, p: Packet)
    requires p.ticket < s.nextTicket && p !in Unwritten(s.hands)
    ensures p !in Unwritten(Step(s, a).hands)
  {
    hide Slots.Acquire, Slots.Release, Slots.Write, Gather, Filter, AdvanceHand;
    if a.Advance? {
      AdvanceLeavesWritten(s, a.thread, p);
    }
  }

  lemma AdvanceLeavesWritten(s: System, t: Thread, p: Packet)
    requires p.ticket < s.nextTicket && p !in Unwritten(s.hands)
    ensures p !in Unwritten(AdvanceHand(s, t).hands)
  {
    hide Slots.Acquire, Slots.Release, Slots.Write;
  }

  lemma {:induction false} RunRemembers(s: System, actions: seq<Action>, p: Packet)
    requires p.ticket < s.nextTicket
    ensures NotRevived(s, Run(s, actions), p)
    ensures p !in Unwritten(s.hands) ==> p !in Unwritten(Run(s, actions).hands)
    decreases |actions|
  {
    if actions != [] {
      hide Step, Unwritten;
      StepDoesNotRevive(s, actions[0], p);
      if p !in Unwritten(s.hands) {
        StepLeavesWritten(s, actions[0], p);
      }
      RunRemembers(Step(s, actions[0]), actions[1..], p);
    }
  }

  /** Live-frame integrity: from any state a run reaches, and however the threads go on, a packet
      whose pixels are in shows exactly its own frame for as long as it is not released. */
  lemma {:induction false} LiveFrameIntegrity(s: System, actions: seq<Action>, p: Packet)
    requires Inv(s) && p in s.live && p !in Unwritten(s.hands)
    ensures var s' := Run(s, actions);
            p in s'.live ==> && p.slot in s'.slots.blocks
                             && s'.slots.blocks[p.slot] == p.frame == s.slots.blocks[p.slot]
  {
    RunKeeps(s, actions);
    RunRemembers(s, actions, p);
  }

  /** The run loop's steps that touch the synchronizer. */
  predicate TouchesGroup(a: Action) {
    a.Submit? || a.CloseGroup? || a.RemoveFromGroup?
  }

  lemma StepKeepsGroup(s: System, a: Action)
    requires !TouchesGroup(a)
    ensures Step(s, a).latest == s.latest
  {
    hide Slots.Acquire, Slots.Release, Slots.Write, Filter, Gather, AdvanceHand;
    if a.Advance? {
      AdvanceKeepsGroup(s, a.thread);
    }
  }

  lemma AdvanceKeepsGroup(s: System, t: Thread)
    ensures AdvanceHand(s, t).latest == s.latest
  {
    hide Slots.Acquire, Slots.Release, Slots.Write;
  }

  /** The packets the synchronizer holds - those of the bundle it just emitted among them - stay
      unreleased and keep their pixels until the run loop next touches the synchronizer, whatever
      capture threads and run loop do meanwhile. */
  lemma {:induction false} BundleStaysLive(s: System, actions: seq<Action>, c: string)
    requires Inv(s) && c in s.latest
    requires forall a :: a in actions ==> !TouchesGroup(a)
    ensures var s' := Run(s, actions);
            && s'.latest == s.latest
            && s.latest[c] in s'.live
            && s.latest[c].slot in s'.slots.blocks
            && s'.slots.blocks[s.latest[c].slot] == s.latest[c].frame
    decreases |actions|
  {
    HeldElsewhereIsWritten(s, s.latest[c]);
    hide SlotsAgree, Accounted, Step;
    if actions != [] {
      StepKeeps(s, actions[0]);
      StepKeepsGroup(s, actions[0]);
      BundleStaysLive(Step(s, actions[0]), actions[1..], c);
    }
  }

  lemma {:induction false} GatherOneSize(latest: map<string, Packet>)
    ensures |Gather(latest, One)| == |latest|
    decreases |latest|
  {
    if latest != map[] {
      var c :| c in latest;
      GatherSplit(latest, One, c);
      GatherOneSize(latest - {c});
      assert |latest - {c}| == |latest| - 1;
    }
  }

  lemma {:induction false} OneSlotEach(inUse: set<nat>, live: set<Packet>)
    requires Owns(inUse, live)
    ensures |inUse| == |live|
    decreases live
  {
    if live == {} {
      assert inUse == {};
    } else {
      var p :| p in live;
      OwnsOneLess(inUse, live, p);
      OneSlotEach(inUse - {p.slot}, live - {p});
    }
  }

  /** No slot leaks: the number in use is the number of packets queued, in threads' hands, in the
      inbox, with the synchronizer and awaiting release. */
  lemma NoSlotLeaks(s: System)
    requires Inv(s)
    ensures |s.slots.inUse| == |s.queue| + |Gather(s.hands, InHand)| + |InInbox(s.inbox)| + |s.latest| + |s.trash|
  {
    OneSlotEach(s.slots.inUse, s.live);
    GatherOneSize(s.latest);
    SameSize(multiset(s.queue) + Gather(s.hands, InHand) + InInbox(s.inbox) + Gather(s.latest, One) + s.trash,
             s.live, s);
  }

  lemma SameSize(held: multiset<Packet>, live: set<Packet>, s: System)
    requires Accounted(s) && s.live == live
    requires held == multiset(s.queue) + Gather(s.hands, InHand) + InInbox(s.inbox) + Gather(s.latest, One) + s.trash
    ensures |held| == |live|
  {
    forall p ensures held[p] == multiset(live)[p] {
      assert held[p] == Holders(s, p);
    }
    assert held == multiset(live);
  }

  // ---------------------------------------------------------------- waiting for a slot

  /** Under the block policy: the queue is empty, the run loop has nothing in hand, and every thread
      wants a slot or is not publishing. */
  ghost predicate Quiet(s: System) {
    && s.conf.policy == Block
    && s.queue == [] && s.inbox.None? && s.trash == multiset{}
    && (forall t :: t in s.hands ==> s.hands[t].Wanting? || s.hands[t].Idle?)
  }

  /** The group is left alone and no thread starts another publish. */
  predicate GoesOn(a: Action) {
    !a.CloseGroup? && !a.RemoveFromGroup? && !a.Begin?
  }

  lemma {:induction false} GatherNothing(hands: map<Thread, Hand>)
    requires forall t :: t in hands ==> InHand(hands[t]) == multiset{}
    ensures Gather(hands, InHand) == multiset{}
    decreases |hands|
  {
    if hands != map[] {
      var t :| t in hands;
      GatherSplit(hands, InHand, t);
      assert |hands - {t}| == |hands| - 1;
      GatherNothing(hands - {t});
    }
  }

  /** In a quiet state the group's slots are all that are in use. */
  lemma QuietSlots(s: System)
    requires Inv(s) && Quiet(s)
    ensures |s.slots.inUse| == |s.latest|
  {
    hide SlotsAgree, Accounted;
    NoSlotLeaks(s);
    GatherNothing(s.hands);
  }

  lemma QuietAdvance(s: System, t: Thread)
    requires Inv(s) && Quiet(s)
    ensures Step(s, Advance(t)) == s <==> HandOf(s, t) == Idle || |s.latest| == s.slots.maxSlots
  {
    hide Slots.Acquire, Slots.Valid, Accounted, Owns, Shows;
    QuietSlots(s);
    s.slots.AcquireTakesAFreeSlot(s.conf.blank);
    var h := HandOf(s, t);
    if h.Wanting? {
      var (slot, slots) := s.slots.Acquire(s.conf.blank);
      if slot.None? {
        assert s.hands[t := h] == s.hands;
      } else {
        assert HandOf(TryAcquire(s, t, h.capture, h), t).Writing?;
      }
    }
  }

  /** In a quiet state with a thread that wants a slot, nothing can go on, by any thread or the run
      loop, exactly when the group holds as many packets as there are slots. The run loop waits
      for a packet then and the threads wait for a slot. */
  lemma StuckIff(s: System, t: Thread)
    requires Inv(s) && Quiet(s) && HandOf(s, t).Wanting?
    ensures (forall a :: GoesOn(a) ==> Step(s, a) == s) <==> |s.latest| == s.slots.maxSlots
  {
    hide Inv;
    QuietAdvance(s, t);
    if |s.latest| == s.slots.maxSlots {
      forall a | GoesOn(a) ensures Step(s, a) == s {
        if a.Advance? {
          QuietAdvance(s, a.thread);
        } else {
          RunLoopWaits(s, a);
        }
      }
    } else {
      assert GoesOn(Advance(t));
    }
  }

  lemma RunLoopWaits(s: System, a: Action)
    requires Quiet(s) && GoesOn(a) && !a.Advance?
    ensures Step(s, a) == s
  {
    if a.Discard? {
      assert Filter(s.queue, NotFrom(a.camera)) == [] && Filter(s.queue, From(a.camera)) == [];
    }
  }

  lemma {:induction false} RunThrough(states: seq<System>, actions: seq<Action>)
    requires |states| == |actions| + 1
    requires forall i :: 0 <= i < |actions| ==> Step(states[i], actions[i]) == states[i + 1]
    ensures Run(states[0], actions) == states[|actions|]
    decreases |actions|
  {
    hide Step;
    if actions != [] {
      RunThrough(states[1..], actions[1..]);
    }
  }

  /** One slot, in use by a frame that thread 0 has published, with the thread's hand, the queue and
      the rest of the state as given. */
  function OneFrame(conf: Config, c: Capture, block: Frame, hand: Hand, queue: seq<Packet>, inbox: Option<Packet>,
                    latest: map<string, Packet>): System {
    System(conf, Slots(1, map[0 := block], [], {0}, 1), queue, map[0 := hand], inbox, latest, multiset{},
           {FirstPacket(c)}, 1)
  }

  function FirstPacket(c: Capture): Packet {
    Packet(0, c.camera, c.sequence, 0, c.frame)
  }

  /** The frame has gone through to the group. */
  function Holding(conf: Config, c: Capture): System {
    OneFrame(conf, c, c.frame, Idle, [], None, map[c.camera := FirstPacket(c)])
  }

  lemma FrameGetsItsSlot(conf: Config, c: Capture)
    requires c.frame.shape == conf.shape
    ensures Run(Init(conf, 1), [Begin(0, c), Advance(0)])
      == OneFrame(conf, c, conf.blank, Writing(FirstPacket(c)), [], None, map[])
  {
    var s0, s2 := Init(conf, 1), OneFrame(conf, c, conf.blank, Writing(FirstPacket(c)), [], None, map[]);
    var s1 := s0.(hands := map[0 := Wanting(c)]);
    assert Step(s1, Advance(0)) == s2;
    RunThrough([s0, s1, s2], [Begin(0, c), Advance(0)]);
  }

  lemma FrameIsQueued(conf: Config, c: Capture)
    requires 1 <= conf.capacity
    ensures Run(OneFrame(conf, c, conf.blank, Writing(FirstPacket(c)), [], None, map[]), [Advance(0), Advance(0)])
      == OneFrame(conf, c, c.frame, Idle, [FirstPacket(c)], None, map[])
  {
    var p := FirstPacket(c);
    var s2 := OneFrame(conf, c, conf.blank, Writing(p), [], None, map[]);
    var s3 := OneFrame(conf, c, c.frame, Offering(p), [], None, map[]);
    assert Step(s2, Advance(0)) == s3;
    RunThrough([s2, s3, OneFrame(conf, c, c.frame, Idle, [p], None, map[])], [Advance(0), Advance(0)]);
  }

  lemma FrameIsSubmitted(conf: Config, c: Capture)
    ensures Run(OneFrame(conf, c, c.frame, Idle, [FirstPacket(c)], None, map[]), [Get, Submit]) == Holding(conf, c)
  {
    var p := FirstPacket(c);
    var s4 := OneFrame(conf, c, c.frame, Idle, [p], None, map[]);
    var s5 := OneFrame(conf, c, c.frame, Idle, [], Some(p), map[]);
    assert Step(s4, Get) == s5;
    assert Step(s5, Submit) == Holding(conf, c);
    RunThrough([s4, s5, Holding(conf, c)], [Get, Submit]);
  }

  lemma {:induction false} RunConcat(s: System, a: seq<Action>, b: seq<Action>)
    ensures Run(s, a + b) == Run(Run(s, a), b)
    decreases |a|
  {
    hide Step;
    if a == [] {
      assert a + b == b;
    } else {
      RunConcat(Step(s, a[0]), a[1..], b);
      assert (a + b)[1..] == a[1..] + b;
    }
  }

  lemma HoldingIsQuiet(conf: Config, first: Capture, second: Capture)
    requires conf.policy == Block
    ensures Quiet(SetHand(Holding(conf, first), 1, Wanting(second)))
  {
  }

  /** It happens: with one slot the first frame goes through to the group, and no other thread ever
      gets the slot. */
  lemma OneSlotIsTooFew(conf: Config, first: Capture, second: Capture)
    requires conf.policy == Block && 1 <= conf.capacity
    requires first.frame.shape == conf.shape == second.frame.shape
    ensures var s := Run(Init(conf, 1), [Begin(0, first), Advance(0)] + [Advance(0), Advance(0)] + [Get, Submit]);
            var stuck := Step(s, Begin(1, second));
            Inv(stuck) && HandOf(stuck, 1).Wanting? && forall a :: GoesOn(a) ==> Step(stuck, a) == stuck
  {
    hide Run, Inv, Quiet, Slots.Acquire, Slots.Valid;
    var begun, queued, sent := [Begin(0, first), Advance(0)], [Advance(0), Advance(0)], [Get, Submit];
    InitIsGood(conf, 1);
    RunKeeps(Init(conf, 1), begun + queued + sent);
    RunConcat(Init(conf, 1), begun + queued, sent);
    RunConcat(Init(conf, 1), begun, queued);
    FrameGetsItsSlot(conf, first);
    FrameIsQueued(conf, first);
    FrameIsSubmitted(conf, first);
    StepKeeps(Holding(conf, first), Begin(1, second));
    HoldingIsQuiet(conf, first, second);
    StuckIff(SetHand(Holding(conf, first), 1, Wanting(second)), 1);
  }
}
