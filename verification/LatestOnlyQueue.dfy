/** The queue between ingress and the orchestrator, which keeps one batch per identity. */
module LatestOnlyQueue {
  import opened Collections
  import opened TemporalBuffer

  type Batch = seq<Sample>

  datatype Entry = Entry(id: string, batch: Batch)

  // ---------------------------------------------------------------- an ordered map

  ghost predicate OneEntryEach(entries: seq<Entry>) {
    forall i, j :: 0 <= i < j < |entries| ==> entries[i].id != entries[j].id
  }

  predicate Has(entries: seq<Entry>, id: string) {
    exists e :: e in entries && e.id == id
  }

  /** Put into an ordered map of limited size: an entry that is there is replaced in its place, a
      new one goes to the end unless the map is full. A limit of 0 or less is none. */
  ghost function OrderedPut(entries: seq<Entry>, maxsize: int, id: string, batch: Batch): (bool, seq<Entry>) {
    if Has(entries, id) then
      (true, seq(|entries|, i requires 0 <= i < |entries| =>
        if entries[i].id == id then Entry(id, batch) else entries[i]))
    else if maxsize > 0 && |entries| >= maxsize then (false, entries)
    else (true, entries + [Entry(id, batch)])
  }

  /** A put fails exactly when the id is new and the map is full. An id that is there gets the batch
      in its place; a new one comes behind all others; nothing else changes. */
  lemma PutPutsTheBatch(entries: seq<Entry>, maxsize: int, id: string, batch: Batch)
    ensures var (ok, after) := OrderedPut(entries, maxsize, id, batch);
            var known := exists i :: 0 <= i < |entries| && entries[i].id == id;
            && (!ok <==> !known && 0 < maxsize <= |entries|)
            && (!ok ==> after == entries)
            && (ok ==> Entry(id, batch) in after)
            && (known ==> |after| == |entries|
                          && forall i :: 0 <= i < |entries| ==>
                               after[i] == if entries[i].id == id then Entry(id, batch) else entries[i])
            && (ok && !known ==> after == entries + [Entry(id, batch)])
  {
    var after := OrderedPut(entries, maxsize, id, batch).1;
    if i :| 0 <= i < |entries| && entries[i].id == id {
      assert entries[i] in entries && Has(entries, id);
      assert after[i] == Entry(id, batch);
    } else {
      assert !Has(entries, id);
    }
  }

  datatype Op = Put(id: string, batch: Batch) | Get

  ghost function AfterOp(entries: seq<Entry>, maxsize: int, op: Op): seq<Entry> {
    match op
    case Put(id, batch) => OrderedPut(entries, maxsize, id, batch).1
    case Get => if entries == [] then [] else entries[1..]
  }

  ghost function AfterOps(entries: seq<Entry>, maxsize: int, ops: seq<Op>): seq<Entry> {
    if ops == [] then entries
    else AfterOp(AfterOps(entries, maxsize, ops[..|ops| - 1]), maxsize, ops[|ops| - 1])
  }

  function Gets(ops: seq<Op>): nat {
    if ops == [] then 0 else Gets(ops[..|ops| - 1]) + (if ops[|ops| - 1].Get? then 1 else 0)
  }

  /** The batch put last for an identity, or the one there was. */
  function LastPut(ops: seq<Op>, id: string, first: Batch): Batch {
    if ops == [] then first
    else if ops[|ops| - 1].Put? && ops[|ops| - 1].id == id then ops[|ops| - 1].batch
    else LastPut(ops[..|ops| - 1], id, first)
  }

  lemma OpKeepsOneEntryEach(entries: seq<Entry>, maxsize: int, op: Op)
    requires OneEntryEach(entries)
    ensures OneEntryEach(AfterOp(entries, maxsize, op))
  {
  }

  lemma OpMovesUp(entries: seq<Entry>, maxsize: int, op: Op, k: nat)
    requires OneEntryEach(entries) && k < |entries| && (op.Get? ==> 0 < k)
    ensures var place := if op.Get? then k - 1 else k;
            var after := AfterOp(entries, maxsize, op);
            && place < |after|
            && after[place]
                 == Entry(entries[k].id, if op.Put? && op.id == entries[k].id then op.batch else entries[k].batch)
  {
  }

  /** First come, first served, and always the freshest: whatever is put in between, an identity in
      place `k` moves up one place with every get, with the batch put for it last. So it is at the
      front after `k` gets, and the next one delivers it. */
  lemma {:induction false} DeliveredInTurn(entries: seq<Entry>, maxsize: int, ops: seq<Op>, k: nat)
    requires OneEntryEach(entries) && k < |entries| && Gets(ops) <= k
    ensures var after := AfterOps(entries, maxsize, ops);
            && OneEntryEach(after)
            && k - Gets(ops) < |after|
            && after[k - Gets(ops)] == Entry(entries[k].id, LastPut(ops, entries[k].id, entries[k].batch))
  {
    if ops != [] {
      var before, op := ops[..|ops| - 1], ops[|ops| - 1];
      DeliveredInTurn(entries, maxsize, before, k);
      OpKeepsOneEntryEach(AfterOps(entries, maxsize, before), maxsize, op);
      OpMovesUp(AfterOps(entries, maxsize, before), maxsize, op, k - Gets(before));
      hide AfterOp, OneEntryEach;
    }
  }

  /** A batch accepted for a new id stands behind all others, so after as many gets as there were
      entries it is at the front, with the batch put for it last, and the next get delivers it. */
  lemma AcceptedIsDelivered(entries: seq<Entry>, maxsize: int, id: string, batch: Batch, ops: seq<Op>)
    requires OneEntryEach(entries) && forall i :: 0 <= i < |entries| ==> entries[i].id != id
    requires maxsize <= 0 || |entries| < maxsize
    requires Gets(ops) <= |entries|
    ensures var (ok, accepted) := OrderedPut(entries, maxsize, id, batch);
            var after := AfterOps(accepted, maxsize, ops);
            && ok
            && |entries| - Gets(ops) < |after|
            && after[|entries| - Gets(ops)] == Entry(id, LastPut(ops, id, batch))
  {
    PutPutsTheBatch(entries, maxsize, id, batch);
    OpKeepsOneEntryEach(entries, maxsize, Put(id, batch));
    DeliveredInTurn(OrderedPut(entries, maxsize, id, batch).1, maxsize, ops, |entries|);
  }

  // ---------------------------------------------------------------- the queue

  /** The ordered map a list of ids and a table of batches stand for. */
  ghost function Entries(notify: seq<string>, latest: map<string, Batch>): seq<Entry>
    requires forall id :: id in notify ==> id in latest
  {
    seq(|notify|, i requires 0 <= i < |notify| => Entry(notify[i], latest[notify[i]]))
  }

  lemma HasEntry(notify: seq<string>, latest: map<string, Batch>, id: string)
    requires forall c :: c in notify ==> c in latest
    ensures Has(Entries(notify, latest), id) <==> id in notify
  {
    if id in notify {
      var i :| 0 <= i < |notify| && notify[i] == id;
      assert Entries(notify, latest)[i].id == id;
    }
  }

  class LatestOnlyQueue {
    const maxsize: int
    var latest: map<string, Batch>
    var queued: set<string>
    var notify: seq<string>

    /** Notified ids are distinct, are the queued ones, have a batch stored, and keep the limit. */
    ghost predicate Valid()
      reads this
    {
      && NoDuplicates(notify)
      && queued == SetOf(notify)
      && (forall id :: id in notify ==> id in latest)
      && (maxsize > 0 ==> |notify| <= maxsize)
    }

    /** Batches stored for ids that are not queued are not part of it. */
    ghost function Pending(): seq<Entry>
      requires Valid()
      reads this
    {
      Entries(notify, latest)
    }

    constructor (maxsize: int)
      ensures Valid() && Pending() == [] && latest == map[] && this.maxsize == maxsize
    {
      this.maxsize := maxsize;
      latest, queued, notify := map[], {}, [];
    }

    /** `put_latest`; false stands for QueueFull, which is raised after the batch was stored. */
    method PutLatest(id: string, batch: Batch) returns (ok: bool)
      requires Valid()
      modifies this
      ensures Valid()
      ensures (ok, Pending()) == OrderedPut(old(Pending()), maxsize, id, batch)
      ensures ok <==> id in old(notify) || maxsize <= 0 || |old(notify)| < maxsize
      ensures ok ==> Entry(id, batch) in Pending()
      ensures notify == if ok && id !in old(notify) then old(notify) + [id] else old(notify)
      ensures latest == old(latest)[id := batch]
    {
      PutPutsTheBatch(Pending(), maxsize, id, batch);
      HasEntry(notify, latest, id);
      latest := latest[id := batch];
      if id !in queued {
        if maxsize > 0 && |notify| >= maxsize {
          assert Pending() == old(Pending());
          return false;
        }
        notify := notify + [id];
        queued := queued + {id};
        assert Pending() == old(Pending()) + [Entry(id, batch)];
        return true;
      }
      assert Pending() == OrderedPut(old(Pending()), maxsize, id, batch).1;
      return true;
    }

    /** `get` on a queue with something in it: the loop ends in its first pass, since the head's
        batch is always there. */
    method GetBatch() returns (id: string, batch: Batch)
      requires Valid() && Pending() != []
      modifies this
      ensures Valid()
      ensures Entry(id, batch) == old(Pending())[0] && Pending() == AfterOp(old(Pending()), maxsize, Get)
      ensures Pending() == old(Pending())[1..]
      ensures id in old(latest) && batch == old(latest)[id] && latest == old(latest) - {id}
    {
      id := notify[0];
      assert notify == [id] + notify[1..];
      assert id !in notify[1..];
      notify := notify[1..];
      queued := queued - {id};
      batch := latest[id];
      latest := latest - {id};
    }
  }
}
