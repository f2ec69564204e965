/** The reusable shared-memory slots frames are copied into. */
module SlotPool {
  import opened Collections
  import opened Contracts

  /** The pool as a value: block contents by slot id, the free list and the slots handed out. */
  datatype Slots = Slots(
    maxSlots: nat,
    blocks: map<nat, Frame>,
    available: seq<nat>,
    inUse: set<nat>,
    nextSlotId: nat)
  {
    ghost predicate Valid() {
      && NoDuplicates(available)
      && SetOf(available) !! inUse
      && blocks.Keys == SetOf(available) + inUse
      && (forall k :: k in blocks ==> k < nextSlotId)
      && |blocks| <= maxSlots
    }

    /** One pass of the acquire loop; `None` where the code returns None or waits. */
    function Acquire(blank: Frame): (Option<nat>, Slots) {
      if available != [] then
        (Some(available[0]), this.(available := available[1..], inUse := inUse + {available[0]}))
      else if |blocks| < maxSlots then
        (Some(nextSlotId),
         this.(blocks := blocks[nextSlotId := blank], inUse := inUse + {nextSlotId}, nextSlotId := nextSlotId + 1))
      else
        (None, this)
    }

    function Write(slot: nat, frame: Frame): Slots {
      this.(blocks := blocks[slot := frame])
    }

    function Release(slot: nat): Slots {
      if slot !in inUse then this
      else this.(inUse := inUse - {slot}, available := available + [slot])
    }

    lemma Partition()
      requires Valid()
      ensures |blocks| == |available| + |inUse|
      ensures |inUse| <= maxSlots
    {
      NoDuplicatesSize(available);
      assert |blocks.Keys| == |SetOf(available)| + |inUse|;
    }

    /** Acquire fails exactly when every permitted slot is in use; a slot it returns was in
        nobody's use, and no block that existed changes. */
    lemma {:induction false} AcquireTakesAFreeSlot(blank: Frame)
      requires Valid()
      ensures var (slot, next) := Acquire(blank);
              && next.Valid()
              && next.maxSlots == maxSlots
              && (slot.None? <==> |inUse| == maxSlots)
              && (slot.None? ==> next == this)
              && (slot.Some? && available != [] ==> slot.value == available[0] && next.available == available[1..])
              && (slot.Some? && available == [] ==> slot.value == nextSlotId && next.available == [])
              && (slot.Some? ==>
                   slot.value !in inUse && next.inUse == inUse + {slot.value} && slot.value in next.blocks)
              && (forall k :: k in blocks ==> k in next.blocks && next.blocks[k] == blocks[k])
    {
      Partition();
      if available != [] {
        TakeHead();
      } else if |blocks| < maxSlots {
        Grow(blank);
      }
    }

    lemma TakeHead()
      requires Valid() && available != []
      ensures available[0] !in inUse
      ensures this.(available := available[1..], inUse := inUse + {available[0]}).Valid()
    {
      var head, rest := available[0], available[1..];
      assert head in SetOf(available);
      assert available == [head] + rest;
      assert NoDuplicates(rest) && head !in rest;
      assert SetOf(rest) == SetOf(available) - {head};
      hide NoDuplicates;
      assert blocks.Keys == SetOf(rest) + (inUse + {head});
    }

    lemma Grow(blank: Frame)
      requires Valid() && available == [] && |blocks| < maxSlots
      ensures nextSlotId !in blocks && nextSlotId !in inUse
      ensures Acquire(blank).1.Valid()
    {
      var grown := blocks[nextSlotId := blank];
      assert nextSlotId !in blocks;
      assert grown.Keys == blocks.Keys + {nextSlotId};
      assert |grown.Keys| == |blocks.Keys| + 1;
    }

    /** A released slot goes back to the free list once, however often it is released. */
    lemma ReleaseReturnsTheSlot(slot: nat)
      requires Valid()
      ensures Release(slot).Valid()
      ensures Release(slot).inUse == inUse - {slot}
      ensures Release(slot).blocks == blocks && Release(slot).maxSlots == maxSlots
      ensures Release(slot).Release(slot) == Release(slot)
      ensures slot in inUse ==> Release(slot).available == available + [slot]
    {
    }
  }

  /** The pool as the program keeps it, updated in place under its own lock. */
  class SharedMemoryFrameStore {
    const frameShape: Shape
    const maxSlots: nat
    const blank: Frame
    var blocks: map<nat, Frame>
    var available: seq<nat>
    var inUse: set<nat>
    var nextSlotId: nat

    ghost function View(): Slots
      reads this
    {
      Slots(maxSlots, blocks, available, inUse, nextSlotId)
    }

    ghost predicate Valid()
      reads this
    {
      View().Valid()
    }

    lemma InUseIsAllocated()
      requires Valid()
      ensures inUse <= blocks.Keys
    {
    }

    constructor (frameShape: Shape, maxSlots: int, blank: Frame)
      ensures Valid() && this.frameShape == frameShape && inUse == {} && blocks == map[]
      ensures this.maxSlots == if maxSlots < 1 then 1 else maxSlots
    {
      this.frameShape := frameShape;
      this.maxSlots := if maxSlots < 1 then 1 else maxSlots;
      this.blank := blank;
      blocks, available, inUse, nextSlotId := map[], [], {}, 0;
    }

    /** One pass of the loop: `None` is "return None" or, for a blocking caller, "wait". */
    method Acquire() returns (slot: Option<nat>)
      requires Valid()
      modifies this
      ensures Valid()
      ensures (slot, View()) == old(View()).Acquire(blank)
      ensures slot.None? <==> old(|inUse|) == maxSlots
      ensures slot.None? ==> View() == old(View())
      ensures slot.Some? ==> slot.value !in old(inUse) && inUse == old(inUse) + {slot.value} && slot.value in blocks
      ensures forall k :: k in old(blocks) ==> k in blocks && blocks[k] == old(blocks[k])
    {
      hide Slots.Valid;
      View().AcquireTakesAFreeSlot(blank);
      if available != [] {
        var head := available[0];
        available, inUse := available[1..], inUse + {head};
        return Some(head);
      }
      if |blocks| < maxSlots {
        var id := CreateSlot();
        inUse := inUse + {id};
        return Some(id);
      }
      return None;
    }

    method CreateSlot() returns (id: nat)
      modifies this
      ensures id == old(nextSlotId) && nextSlotId == id + 1
      ensures blocks == old(blocks)[id := blank]
      ensures available == old(available) && inUse == old(inUse)
    {
      id := nextSlotId;
      nextSlotId := nextSlotId + 1;
      blocks := blocks[id := blank];
    }

    method Write(slot: nat, frame: Frame)
      requires Valid() && slot in blocks
      modifies this`blocks
      ensures Valid() && View() == old(View()).Write(slot, frame)
      ensures blocks == old(blocks)[slot := frame]
    {
      blocks := blocks[slot := frame];
      assert blocks.Keys == old(blocks.Keys);
    }

    method Release(slot: nat)
      requires Valid()
      modifies this`inUse, this`available
      ensures Valid() && View() == old(View()).Release(slot)
      ensures inUse == old(inUse) - {slot} && blocks == old(blocks)
    {
      View().ReleaseReturnsTheSlot(slot);
      if slot !in inUse {
        return;
      }
      inUse := inUse - {slot};
      available := available + [slot];
    }

    /** A slot with the frame in it, if there is one; no slot in use changes. */
    method Fill(frame: Frame) returns (slot: Option<nat>)
      requires Valid()
      modifies this
      ensures Valid()
      ensures slot.None? <==> old(|inUse|) == maxSlots
      ensures slot.None? ==> View() == old(View())
      ensures slot.Some? ==>
        && slot.value !in old(inUse) && inUse == old(inUse) + {slot.value}
        && slot.value in blocks && blocks[slot.value] == frame
      ensures forall k :: k in old(inUse) && k in old(blocks) ==> k in blocks && blocks[k] == old(blocks[k])
    {
      hide Slots.Valid, Slots.Acquire;
      slot := Acquire();
      if slot.Some? {
        Write(slot.value, frame);
      }
    }

    /** Forget every block; slot ids are not used again. */
    method Close()
      requires Valid()
      modifies this
      ensures Valid() && blocks == map[] && inUse == {} && available == [] && nextSlotId == old(nextSlotId)
    {
      blocks, available, inUse := map[], [], {};
    }
  }
}
