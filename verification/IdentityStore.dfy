/** The identity collection: resolving tracks against it and writing the latest observations. */
module IdentityStore {
  import opened Collections
  import IdentityService

  type IdentityMatch = IdentityService.IdentityMatch

  /** A stored identity; `vector` stands for the embedding. Stamps are in milliseconds. */
  datatype Row = Row(vector: nat, cameraId: string, streamName: string, localTrackId: string, firstSeen: int,
                     lastSeen: int)

  type Rows = map<string, Row>

  datatype Payload = Payload(id: string, row: Row, isNew: bool)

  datatype Request = Request(cameraId: string, streamName: string, localTrackId: string, vector: nat)

  datatype Distance = Missing | NotANumber | Number(value: real)

  /** A search hit with the places an id may be in, or one with no fields at all. */
  datatype Hit =
    | Empty
    | Hit(distance: Distance, directId: Option<string>, namedId: Option<string>, entityId: Option<string>)

  // ---------------------------------------------------------------- writing

  function UpsertAll(rows: Rows, payloads: seq<Payload>): Rows {
    if payloads == [] then rows
    else UpsertAll(rows, payloads[..|payloads| - 1])[payloads[|payloads| - 1].id := payloads[|payloads| - 1].row]
  }

  predicate Mentions(payloads: seq<Payload>, id: string) {
    exists p :: p in payloads && p.id == id
  }

  /** A dictionary by id, as the list of its values: an id keeps its first place and its last payload. */
  function Dedup(payloads: seq<Payload>): seq<Payload> {
    if payloads == [] then []
    else
      var before, p := Dedup(payloads[..|payloads| - 1]), payloads[|payloads| - 1];
      if Mentions(before, p.id) then
        seq(|before|, i requires 0 <= i < |before| => if before[i].id == p.id then p else before[i])
      else before + [p]
  }

  ghost predicate OneEach(payloads: seq<Payload>) {
    forall i, j :: 0 <= i < j < |payloads| ==> payloads[i].id != payloads[j].id
  }

  /** What a list of payloads writes for an id: the last one's row. */
  function LastRow(payloads: seq<Payload>, id: string): Option<Row> {
    if payloads == [] then None
    else if payloads[|payloads| - 1].id == id then Some(payloads[|payloads| - 1].row)
    else LastRow(payloads[..|payloads| - 1], id)
  }

  lemma {:induction false} UpsertWritesLastRows(rows: Rows, payloads: seq<Payload>, id: string)
    ensures Lookup(UpsertAll(rows, payloads), id) ==
      if LastRow(payloads, id).Some? then LastRow(payloads, id) else Lookup(rows, id)
  {
    if payloads != [] {
      UpsertWritesLastRows(rows, payloads[..|payloads| - 1], id);
    }
  }

  /** It is the row of the last payload with that id. */
  lemma {:induction false} LastRowIsTheLast(payloads: seq<Payload>, i: nat)
    requires i < |payloads| && forall j :: i < j < |payloads| ==> payloads[j].id != payloads[i].id
    ensures LastRow(payloads, payloads[i].id) == Some(payloads[i].row)
  {
    if i < |payloads| - 1 {
      LastRowIsTheLast(payloads[..|payloads| - 1], i);
    }
  }

  lemma {:induction false} LastRowIsMentioned(payloads: seq<Payload>, id: string)
    ensures LastRow(payloads, id).Some? <==> Mentions(payloads, id)
  {
    if payloads != [] {
      var before, p := payloads[..|payloads| - 1], payloads[|payloads| - 1];
      LastRowIsMentioned(before, id);
      assert payloads == before + [p];
    }
  }

  /** Adding to a dictionary. */
  lemma DedupStep(before: seq<Payload>, p: Payload, id: string)
    requires OneEach(before)
    ensures var after := if Mentions(before, p.id) then
                seq(|before|, i requires 0 <= i < |before| => if before[i].id == p.id then p else before[i])
              else before + [p];
            && OneEach(after)
            && LastRow(after, id) == if p.id == id then Some(p.row) else LastRow(before, id)
  {
    var after := if Mentions(before, p.id) then
        seq(|before|, i requires 0 <= i < |before| => if before[i].id == p.id then p else before[i])
      else before + [p];
    assert OneEach(after);
    LastRowIsMentioned(before, id);
    LastRowIsMentioned(after, id);
    if Mentions(after, id) {
      var q :| q in after && q.id == id;
      var i :| 0 <= i < |after| && after[i] == q;
      LastRowIsTheLast(after, i);
      if i < |before| {
        LastRowIsTheLast(before, i);
      }
    } else {
      StillMentioned(before, after, id);
    }
  }

  lemma StillMentioned(before: seq<Payload>, after: seq<Payload>, id: string)
    requires |before| <= |after| && forall i :: 0 <= i < |before| ==> after[i].id == before[i].id
    ensures Mentions(before, id) ==> Mentions(after, id)
  {
  }

  lemma {:induction false} DedupKeepsLastRows(payloads: seq<Payload>, id: string)
    ensures OneEach(Dedup(payloads)) && LastRow(Dedup(payloads), id) == LastRow(payloads, id)
  {
    if payloads != [] {
      DedupKeepsLastRows(payloads[..|payloads| - 1], id);
      DedupStep(Dedup(payloads[..|payloads| - 1]), payloads[|payloads| - 1], id);
    }
  }

  /** Writing the deduplicated batch has every key once and leaves the collection as writing every
      payload in order would. */
  lemma DedupedWriteIsTheSame(rows: Rows, payloads: seq<Payload>)
    ensures OneEach(Dedup(payloads))
    ensures UpsertAll(rows, Dedup(payloads)) == UpsertAll(rows, payloads)
  {
    forall id ensures Lookup(UpsertAll(rows, Dedup(payloads)), id) == Lookup(UpsertAll(rows, payloads), id) {
      UpsertWritesLastRows(rows, Dedup(payloads), id);
      UpsertWritesLastRows(rows, payloads, id);
      DedupKeepsLastRows(payloads, id);
    }
    DedupKeepsLastRows(payloads, "");
    SameLookups(UpsertAll(rows, Dedup(payloads)), UpsertAll(rows, payloads));
  }

  lemma SameLookups(a: Rows, b: Rows)
    requires forall id :: Lookup(a, id) == Lookup(b, id)
    ensures a == b
  {
    forall id ensures id in a <==> id in b {
      assert Lookup(a, id) == Lookup(b, id);
    }
    forall id | id in a ensures a[id] == b[id] {
      assert Lookup(a, id) == Lookup(b, id);
    }
  }

  // ---------------------------------------------------------------- one write and what it does to the stamps

  /** Some payload says the id was matched, so its stored stamp is looked up. */
  predicate Matched(payloads: seq<Payload>, id: string) {
    exists p :: p in payloads && p.id == id && !p.isNew
  }

  /** The stored first stamps of the matched ids; none when the lookup fails. */
  function Fetched(rows: Rows, payloads: seq<Payload>, fetchFails: bool): map<string, int> {
    if fetchFails then map[] else map id | id in rows && Matched(payloads, id) :: rows[id].firstSeen
  }

  function Patch(p: Payload, fetched: map<string, int>): Payload {
    if p.id in fetched then p.(row := p.row.(firstSeen := fetched[p.id])) else p
  }

  function Patched(payloads: seq<Payload>, fetched: map<string, int>): seq<Payload> {
    seq(|payloads|, i requires 0 <= i < |payloads| => Patch(payloads[i], fetched))
  }

  /** Every write of the store: payloads, patched with the stored first stamps, written in order. */
  function AfterWrite(rows: Rows, payloads: seq<Payload>, fetchFails: bool): Rows {
    UpsertAll(rows, Patched(payloads, Fetched(rows, payloads, fetchFails)))
  }

  ghost predicate Stamped(payloads: seq<Payload>, now: int) {
    forall p :: p in payloads ==> p.row.firstSeen == now == p.row.lastSeen
  }

  /** Ids made up for unmatched tracks are not taken. */
  ghost predicate FreshlyNamed(rows: Rows, payloads: seq<Payload>) {
    forall p :: p in payloads && p.isNew ==> p.id !in rows
  }

  ghost predicate Ordered(rows: Rows) {
    forall id :: id in rows ==> rows[id].firstSeen <= rows[id].lastSeen
  }

  lemma {:induction false} LastRowPatched(payloads: seq<Payload>, fetched: map<string, int>, id: string)
    ensures LastRow(Patched(payloads, fetched), id) ==
      var row := LastRow(payloads, id);
      if row.Some? && id in fetched then Some(row.value.(firstSeen := fetched[id])) else row
  {
    if payloads != [] {
      var before := payloads[..|payloads| - 1];
      LastRowPatched(before, fetched, id);
      assert Patched(payloads, fetched)[..|payloads| - 1] == Patched(before, fetched);
    }
  }

  lemma {:induction false} LastRowStamped(payloads: seq<Payload>, now: int, id: string)
    requires Stamped(payloads, now)
    ensures LastRow(payloads, id).Some? ==>
      LastRow(payloads, id).value.firstSeen == now == LastRow(payloads, id).value.lastSeen
  {
    if payloads != [] {
      LastRowStamped(payloads[..|payloads| - 1], now, id);
    }
  }

  /** An id the payloads mention gets the last payload's row, stamped now, keeping a fetched first
      stamp; any other row stays. */
  lemma RowAfterWrite(rows: Rows, payloads: seq<Payload>, fetchFails: bool, now: int, id: string)
    requires Stamped(payloads, now)
    ensures var known := !fetchFails && id in rows && exists p :: p in payloads && p.id == id && !p.isNew;
            var after := Lookup(AfterWrite(rows, payloads, fetchFails), id);
            if Mentions(payloads, id) then
              && LastRow(payloads, id).Some?
              && after == Some(LastRow(payloads, id).value.(
                   firstSeen := if known then rows[id].firstSeen else now, lastSeen := now))
            else after == Lookup(rows, id)
    ensures id in Fetched(rows, payloads, fetchFails) <==>
      !fetchFails && id in rows && exists p :: p in payloads && p.id == id && !p.isNew
  {
    var fetched := Fetched(rows, payloads, fetchFails);
    UpsertWritesLastRows(rows, Patched(payloads, fetched), id);
    LastRowPatched(payloads, fetched, id);
    LastRowStamped(payloads, now, id);
    LastRowIsMentioned(payloads, id);
  }

  /** A first stamp never changes when the lookup works and made-up ids are fresh. */
  lemma FirstSeenIsKept(rows: Rows, payloads: seq<Payload>, now: int, id: string)
    requires Stamped(payloads, now) && FreshlyNamed(rows, payloads) && id in rows
    ensures var after := AfterWrite(rows, payloads, false);
            id in after && after[id].firstSeen == rows[id].firstSeen
  {
    RowAfterWrite(rows, payloads, false, now, id);
    assert Mentions(payloads, id) ==> Matched(payloads, id);
  }

  /** Stamps stay in order exactly when no row whose first stamp is fetched was first seen later
      than now - and `now` is read before the lock is taken, so it can be earlier. */
  lemma OrderIsKeptIff(rows: Rows, payloads: seq<Payload>, fetchFails: bool, now: int)
    requires Ordered(rows) && Stamped(payloads, now)
    ensures Ordered(AfterWrite(rows, payloads, fetchFails))
      <==> forall id :: id in Fetched(rows, payloads, fetchFails) ==> rows[id].firstSeen <= now
  {
    var fetched := Fetched(rows, payloads, fetchFails);
    var after := AfterWrite(rows, payloads, fetchFails);
    forall id
      ensures id in after ==> (after[id].firstSeen <= after[id].lastSeen <==> (id in fetched ==> fetched[id] <= now)) {
      RowAfterWrite(rows, payloads, fetchFails, now, id);
      assert Matched(payloads, id) ==> Mentions(payloads, id);
    }
    forall id | id in fetched ensures id in after {
      RowAfterWrite(rows, payloads, fetchFails, now, id);
      assert Matched(payloads, id) ==> Mentions(payloads, id);
    }
  }

  /** It does happen: a call that read the clock at 5 gets the lock after one that read it at 10
      and created the identity; the row then says first seen at 10, last seen at 5. */
  lemma LateStampBreaksTheOrder()
    ensures var created := AfterWrite(map[], [Payload("person", Row(0, "c", "s", "t", 10, 10), true)], false);
            var rewritten := AfterWrite(created, [Payload("person", Row(1, "c", "s", "t", 5, 5), false)], false);
            Ordered(created) && !Ordered(rewritten)
  {
  }

  // ---------------------------------------------------------------- whole runs

  datatype Write = Write(payloads: seq<Payload>, fetchFails: bool, now: int)

  function RunWrites(writes: seq<Write>): Rows {
    if writes == [] then map[]
    else
      var w := writes[|writes| - 1];
      AfterWrite(RunWrites(writes[..|writes| - 1]), w.payloads, w.fetchFails)
  }

  ghost predicate AllStamped(writes: seq<Write>) {
    forall w :: w in writes ==> Stamped(w.payloads, w.now)
  }

  /** Writes get the lock in the order they read the clock. */
  ghost predicate Clocked(writes: seq<Write>) {
    forall i, j :: 0 <= i < j < |writes| ==> writes[i].now <= writes[j].now
  }

  /** In a run in clock order no row was ever first seen after it was last seen. */
  lemma {:induction false} OrderedOverRuns(writes: seq<Write>)
    requires AllStamped(writes) && Clocked(writes)
    ensures Ordered(RunWrites(writes))
    ensures forall id :: id in RunWrites(writes) ==>
      writes != [] && RunWrites(writes)[id].lastSeen <= writes[|writes| - 1].now
  {
    if writes != [] {
      var before, w := writes[..|writes| - 1], writes[|writes| - 1];
      OrderedOverRuns(before);
      assert Stamped(w.payloads, w.now);
      var rows := RunWrites(before);
      OrderIsKeptIff(rows, w.payloads, w.fetchFails, w.now);
      forall id | id in RunWrites(writes) ensures RunWrites(writes)[id].lastSeen <= w.now {
        RowAfterWrite(rows, w.payloads, w.fetchFails, w.now, id);
      }
    }
  }

  /** From the `n`-th write on every lookup works and every made-up id is fresh. */
  ghost predicate Undisturbed(writes: seq<Write>, n: nat) {
    forall k :: n <= k < |writes| ==> !writes[k].fetchFails && FreshlyNamed(RunWrites(writes[..k]), writes[k].payloads)
  }

  /** An identity stays and its first stamp with it, however long the run goes on. */
  lemma {:induction false} FirstSeenOverRuns(writes: seq<Write>, n: nat, id: string)
    requires AllStamped(writes) && n <= |writes| && Undisturbed(writes, n) && id in RunWrites(writes[..n])
    ensures id in RunWrites(writes) && RunWrites(writes)[id].firstSeen == RunWrites(writes[..n])[id].firstSeen
  {
    if n == |writes| {
      assert writes[..n] == writes;
    } else {
      var before, w := writes[..|writes| - 1], writes[|writes| - 1];
      assert before[..n] == writes[..n];
      UndisturbedBefore(writes, n);
      FirstSeenOverRuns(before, n, id);
      assert writes[|writes| - 1] in writes;
      FirstSeenIsKept(RunWrites(before), w.payloads, w.now, id);
      hide AfterWrite, Undisturbed, FreshlyNamed, Stamped;
    }
  }

  lemma UndisturbedBefore(writes: seq<Write>, n: nat)
    requires Undisturbed(writes, n) && n < |writes|
    ensures var before, w := writes[..|writes| - 1], writes[|writes| - 1];
            Undisturbed(before, n) && !w.fetchFails && FreshlyNamed(RunWrites(before), w.payloads)
  {
    hide FreshlyNamed, RunWrites;
    var before := writes[..|writes| - 1];
    forall k | n <= k < |before|
      ensures !before[k].fetchFails && FreshlyNamed(RunWrites(before[..k]), before[k].payloads) {
      assert before[..k] == writes[..k];
    }
  }

  // ---------------------------------------------------------------- reading search results

  function ExtractIdentityId(hit: Hit): Option<string> {
    if hit.Empty? then None
    else if hit.directId.Some? then hit.directId
    else if hit.namedId.Some? then hit.namedId
    else hit.entityId
  }

  /** What an answer to one request has to say, by its hits alone: it is a match exactly when the
      best hit has a number at or above the threshold and an id in one of the three places, looked
      at in this order. A match has that id and that number; anything else has the new id, with
      the number if it is below the threshold and 0 otherwise. */
  ghost predicate Answers(found: IdentityMatch, hits: seq<Hit>, threshold: real, newId: string) {
    var scored := hits != [] && hits[0].Hit? && hits[0].distance.Number?;
    var near := scored && hits[0].distance.value >= threshold;
    var named := near && (hits[0].directId.Some? || hits[0].namedId.Some? || hits[0].entityId.Some?);
    && (found.matchedExisting <==> named)
    && (named ==>
         && found.similarity == Some(hits[0].distance.value)
         && (hits[0].directId.Some? ==> found.identityId == hits[0].directId.value)
         && (hits[0].directId.None? && hits[0].namedId.Some? ==> found.identityId == hits[0].namedId.value)
         && (hits[0].directId.None? && hits[0].namedId.None? ==> found.identityId == hits[0].entityId.value))
    && (!named ==>
         && found.identityId == newId
         && found.similarity == Some(if scored && !near then hits[0].distance.value else 0.0))
  }

  /** The payload that tells of one answer. */
  ghost predicate Observes(p: Payload, request: Request, found: IdentityMatch, now: int) {
    && p.id == found.identityId && (p.isNew <==> !found.matchedExisting)
    && p.row.vector == request.vector
    && p.row.cameraId == request.cameraId && p.row.streamName == request.streamName
    && p.row.localTrackId == request.localTrackId
    && p.row.firstSeen == now && p.row.lastSeen == now
  }

  /** What a best hit means; `newId` is the id made up if it means nobody known. */
  function ExtractBestMatch(best: Option<Hit>, threshold: real, newId: string): (found: IdentityMatch)
    ensures Answers(found, if best.Some? then [best.value] else [], threshold, newId)
  {
    if best.None? || best.value.Empty? || !best.value.distance.Number? then
      IdentityService.IdentityMatch(newId, Some(0.0), false)
    else
      var similarity := best.value.distance.value;
      if similarity >= threshold then
        var id := ExtractIdentityId(best.value);
        if id.Some? then IdentityService.IdentityMatch(id.value, Some(similarity), true)
        else IdentityService.IdentityMatch(newId, Some(0.0), false)
      else IdentityService.IdentityMatch(newId, Some(similarity), false)
  }

  /** The best hit's distance is a number, or is not asked for. */
  predicate Readable(hits: seq<Hit>) {
    hits == [] || hits[0].Empty? || hits[0].distance.Number?
  }

  /** One hit can be read if its distance can, and a near one needs an id and a working lookup. */
  ghost predicate Resolvable(hits: seq<Hit>, threshold: real, fetchFails: bool) {
    hits != [] ==>
      if hits[0].Empty? then 0.0 < threshold
      else
        && hits[0].distance.Number?
        && (hits[0].distance.value >= threshold ==>
             (hits[0].directId.Some? || hits[0].namedId.Some? || hits[0].entityId.Some?) && !fetchFails)
  }

  function Similarity(hits: seq<Hit>): real
    requires Readable(hits)
  {
    if hits == [] || hits[0].Empty? then 0.0 else hits[0].distance.value
  }

  /** Results may be missing for the last requests, or be empty. */
  function BestHit(searchResults: seq<seq<Hit>>, i: nat): Option<Hit> {
    if i < |searchResults| && searchResults[i] != [] then Some(searchResults[i][0]) else None
  }

  function Observation(request: Request, found: IdentityMatch, now: int): (p: Payload)
    ensures Observes(p, request, found, now)
  {
    Payload(found.identityId, Row(request.vector, request.cameraId, request.streamName, request.localTrackId, now, now),
            !found.matchedExisting)
  }

  /** One match and one payload a request, in the order of the requests. */
  ghost predicate Parsed(requests: seq<Request>, searchResults: seq<seq<Hit>>, threshold: real, newIds: seq<string>,
                         now: int, results: seq<IdentityMatch>, payloads: seq<Payload>)
    requires |newIds| == |requests|
  {
    && |results| == |payloads| <= |requests|
    && (forall i :: 0 <= i < |results| ==>
         && Answers(results[i], if i < |searchResults| then searchResults[i] else [], threshold, newIds[i])
         && Observes(payloads[i], requests[i], results[i], now))
  }

  // ---------------------------------------------------------------- the store

  class MilvusIdentityStore {
    const threshold: real
    var rows: Rows
    /** Every write so far. */
    ghost var writes: seq<Write>

    ghost predicate Valid()
      reads this
    {
      rows == RunWrites(writes) && AllStamped(writes)
    }

    constructor (threshold: real)
      ensures Valid() && writes == [] && this.threshold == threshold
    {
      this.threshold := threshold;
      rows, writes := map[], [];
    }

    /** The client's `upsert`; it refuses a batch that has a key twice. */
    method Upsert(payloads: seq<Payload>)
      requires OneEach(payloads)
      modifies this`rows
      ensures rows == UpsertAll(old(rows), payloads)
    {
      var i := 0;
      while i < |payloads|
        invariant 0 <= i <= |payloads|
        invariant rows == UpsertAll(old(rows), payloads[..i])
      {
        assert payloads[..i + 1][..i] == payloads[..i];
        rows := rows[payloads[i].id := payloads[i].row];
        i := i + 1;
      }
      assert payloads[..i] == payloads;
    }

    /** `_parse_batch_results`: whatever the search returned, every request gets its match. */
    method ParseBatchResults(requests: seq<Request>, searchResults: seq<seq<Hit>>, newIds: seq<string>, now: int)
      returns (results: seq<IdentityMatch>, payloads: seq<Payload>)
      requires |newIds| == |requests|
      ensures |results| == |requests| && Parsed(requests, searchResults, threshold, newIds, now, results, payloads)
    {
      results, payloads := [], [];
      while |results| < |requests|
        invariant |results| <= |requests|
        invariant Parsed(requests, searchResults, threshold, newIds, now, results, payloads)
      {
        var i := |results|;
        var found := ExtractBestMatch(BestHit(searchResults, i), threshold, newIds[i]);
        results := results + [found];
        payloads := payloads + [Observation(requests[i], found, now)];
      }
    }

    /** Patch the payloads with the first stamps that could be fetched. */
    method PatchFirstSeen(payloads: seq<Payload>, fetchFails: bool) returns (patched: seq<Payload>)
      ensures patched == Patched(payloads, Fetched(rows, payloads, fetchFails))
    {
      patched := payloads;
      var stored := Fetched(rows, payloads, fetchFails);
      var i := 0;
      while i < |payloads|
        invariant 0 <= i <= |payloads| == |patched|
        invariant forall k :: 0 <= k < |payloads| ==>
          patched[k] == if k < i then Patch(payloads[k], stored) else payloads[k]
      {
        if patched[i].id in stored {
          patched := patched[i := patched[i].(row := patched[i].row.(firstSeen := stored[patched[i].id]))];
        }
        i := i + 1;
      }
    }

    /** `_locked_batch_resolve` after the search: one match a request, and the collection is as if
        every observation had been written in turn. `now` was read before the lock was taken. */
    method LockedBatchResolve(requests: seq<Request>, searchResults: seq<seq<Hit>>, newIds: seq<string>,
                              fetchFails: bool, now: int)
      returns (results: seq<IdentityMatch>)
      requires Valid() && |newIds| == |requests|
      modifies this
      ensures Valid()
      ensures |results| == |requests|
      ensures exists payloads ::
        && Parsed(requests, searchResults, threshold, newIds, now, results, payloads)
        && writes == old(writes) + [Write(payloads, fetchFails, now)]
        && rows == AfterWrite(old(rows), payloads, fetchFails)
    {
      hide RunWrites, AfterWrite, Dedup, UpsertAll, Fetched, Patched;
      var payloads;
      results, payloads := ParseBatchResults(requests, searchResults, newIds, now);
      ParsedAreStamped(requests, searchResults, threshold, newIds, now, results, payloads);
      var patched := PatchFirstSeen(payloads, fetchFails);
      DedupedWriteIsTheSame(rows, patched);
      Upsert(Dedup(patched));
      Log(old(rows), payloads, fetchFails, now);
    }

    /** Put a write that was made on record. */
    ghost method Log(before: Rows, payloads: seq<Payload>, fetchFails: bool, now: int)
      requires before == RunWrites(writes) && AllStamped(writes) && Stamped(payloads, now)
      requires rows == UpsertAll(before, Patched(payloads, Fetched(before, payloads, fetchFails)))
      modifies this`writes
      ensures Valid() && writes == old(writes) + [Write(payloads, fetchFails, now)]
      ensures rows == AfterWrite(before, payloads, fetchFails)
    {
      var w := Write(payloads, fetchFails, now);
      assert (writes + [w])[..|writes|] == writes;
      writes := writes + [w];
    }

    /** Write one observation; a lookup that fails raises before anything is written. */
    method WriteOne(payload: Payload, fetchFails: bool, now: int) returns (ok: bool)
      requires Valid() && Stamped([payload], now)
      modifies this
      ensures Valid()
      ensures ok <==> !(fetchFails && !payload.isNew)
      ensures if ok then writes == old(writes) + [Write([payload], false, now)] else writes == old(writes)
    {
      if fetchFails && !payload.isNew {
        return false;
      }
      hide RunWrites, UpsertAll, Fetched;
      var patched := PatchFirstSeen([payload], false);
      Upsert(patched);
      Log(old(rows), [payload], false, now);
      return true;
    }

    /** `resolve_identity` after the search: unlike in a batch, a hit that cannot be read raises. An
        empty one counts as no hit until its id is wanted. */
    method ResolveIdentity(request: Request, hits: seq<Hit>, newId: string, fetchFails: bool, now: int)
      returns (result: Option<IdentityMatch>)
      requires Valid()
      modifies this
      ensures Valid()
      ensures result.Some? <==> Resolvable(hits, threshold, fetchFails)
      ensures result.Some? ==> Answers(result.value, hits, threshold, newId)
      ensures result.Some? ==>
        exists p :: Observes(p, request, result.value, now) && writes == old(writes) + [Write([p], false, now)]
      ensures result.None? ==> writes == old(writes)
    {
      if !Readable(hits) {
        return None;
      }
      var similarity := Similarity(hits);
      var found;
      if hits != [] && similarity >= threshold {
        var id := ExtractIdentityId(hits[0]);
        if id.None? {
          return None;
        }
        found := IdentityService.IdentityMatch(id.value, Some(similarity), true);
      } else {
        found := IdentityService.IdentityMatch(newId, Some(similarity), false);
      }
      var ok := WriteOne(Observation(request, found, now), fetchFails, now);
      return if ok then Some(found) else None;
    }

    /** `refresh_identity` for an identity somebody already has. */
    method RefreshIdentity(id: string, request: Request, fetchFails: bool, now: int) returns (ok: bool)
      requires Valid()
      modifies this
      ensures Valid()
      ensures ok <==> !fetchFails
      ensures ok ==>
        exists p :: Observes(p, request, IdentityService.IdentityMatch(id, None, true), now)
                    && writes == old(writes) + [Write([p], false, now)]
      ensures !ok ==> writes == old(writes)
    {
      ok := WriteOne(Observation(request, IdentityService.IdentityMatch(id, None, true), now), fetchFails, now);
    }
  }

  lemma ParsedAreStamped(requests: seq<Request>, searchResults: seq<seq<Hit>>, threshold: real, newIds: seq<string>,
                         now: int, results: seq<IdentityMatch>, payloads: seq<Payload>)
    requires |newIds| == |requests| && Parsed(requests, searchResults, threshold, newIds, now, results, payloads)
    ensures Stamped(payloads, now)
  {
    forall p | p in payloads ensures p.row.firstSeen == now == p.row.lastSeen {
      var i :| 0 <= i < |payloads| && payloads[i] == p;
    }
  }
}
