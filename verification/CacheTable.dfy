/**
 The `cache_slots` table (crates/mirage-db/src/cache.rs): one row per arena slot, changed
 only by guarded UPDATEs. Rows are kept in `ORDER BY shard_id, slot_index` order, so a
 row's position is its slot. Every call is one transaction: it commits whole or leaves
 the table as it was.
 */
module CacheTable {
  import opened Basics

  datatype SlotState = Free | Reserved | Resident | Evicting | RetryDeallocate

  datatype Row = Row(generation: nat, state: SlotState, hash: Option<PageHash>, length: nat)

  /** A caller's copy of a row; it may be stale or made up. */
  datatype Record = Record(slot: nat, generation: nat, state: SlotState, hash: Option<PageHash>, length: nat)

  datatype ReserveOutcome = Claimed(record: Record) | AlreadyResident(record: Record)

  datatype CommitOutcome = Committed(record: Record) | Duplicate(record: Record)

  /** The table after a call, and what the call returned. */
  datatype Done<+T> = Done(rows: seq<Row>, result: Result<T>)

  // ----- Table constraints -----

  /** The table's CHECK constraint, with the length kept in step with the hash. */
  predicate RowOk(r: Row) {
    (r.state.Free? <==> r.hash.None?) && (r.state.Free? ==> r.length == 0)
  }

  predicate TableOk(rows: seq<Row>) {
    forall i :: 0 <= i < |rows| ==> RowOk(rows[i])
  }

  /** The partial unique index: no hash is resident twice. */
  ghost predicate UniqueResidents(rows: seq<Row>) {
    forall i, j :: 0 <= i < j < |rows| && rows[i].state.Resident? && rows[j].state.Resident? ==>
        rows[i].hash != rows[j].hash
  }

  function RecordOf(rows: seq<Row>, i: nat): Record
    requires i < |rows|
  {
    Record(i, rows[i].generation, rows[i].state, rows[i].hash, rows[i].length)
  }

  // ----- Queries -----

  /** Lowest free slot at or after `from`, or the number of rows. */
  function FirstFree(rows: seq<Row>, from: nat): (i: nat)
    requires from <= |rows|
    ensures from <= i <= |rows|
    ensures i < |rows| ==> rows[i].state.Free?
    ensures forall j :: from <= j < i ==> !rows[j].state.Free?
    decreases |rows| - from
  {
    if from == |rows| || rows[from].state.Free? then from else FirstFree(rows, from + 1)
  }

  /** First row holding `hash` in `state` at or after `from`, or the number of rows. */
  function FindHash(rows: seq<Row>, hash: PageHash, state: SlotState, from: nat): (i: nat)
    requires from <= |rows|
    ensures from <= i <= |rows|
    ensures i < |rows| ==> rows[i].state == state && rows[i].hash == Some(hash)
    ensures forall j :: from <= j < i ==> !(rows[j].state == state && rows[j].hash == Some(hash))
    decreases |rows| - from
  {
    if from == |rows| || (rows[from].state == state && rows[from].hash == Some(hash)) then from
    else FindHash(rows, hash, state, from + 1)
  }

  // ----- Transactions -----

  predicate Usable(rec: Record, state: SlotState) {
    rec.state == state && rec.hash.Some? && rec.length != 0
  }

  predicate Guarded(rows: seq<Row>, rec: Record, states: set<SlotState>) {
    rec.slot < |rows| && rows[rec.slot].generation == rec.generation && rows[rec.slot].state in states
  }

  function ReserveSpec(rows: seq<Row>, hash: PageHash, length: nat): Done<ReserveOutcome> {
    if length == 0 then Done(rows, Err)
    else
      var held := FindHash(rows, hash, Resident, 0);
      if held < |rows| then Done(rows, Ok(AlreadyResident(RecordOf(rows, held))))
      else
        var i := FirstFree(rows, 0);
        if i == |rows| || rows[i].generation + 1 > I64_MAX then Done(rows, Err)
        else
          var row := Row(rows[i].generation + 1, Reserved, Some(hash), length);
          Done(rows[i := row], Ok(Claimed(RecordOf(rows[i := row], i))))
  }

  datatype Request = Request(hash: PageHash, length: nat)

  predicate Absent(rows: seq<Row>, hash: PageHash) {
    FindHash(rows, hash, Resident, 0) == |rows| && FindHash(rows, hash, Reserved, 0) == |rows|
  }

  /** The row that already answers a request: the resident one, else the first reserved one. */
  function Holder(rows: seq<Row>, hash: PageHash): (i: nat)
    requires !Absent(rows, hash)
    ensures i < |rows| && rows[i].hash == Some(hash)
  {
    if FindHash(rows, hash, Resident, 0) < |rows| then FindHash(rows, hash, Resident, 0)
    else FindHash(rows, hash, Reserved, 0)
  }

  function Answer(rows: seq<Row>, hash: PageHash): ReserveOutcome
    requires !Absent(rows, hash)
  {
    var i := Holder(rows, hash);
    if rows[i].state.Resident? then AlreadyResident(RecordOf(rows, i)) else Claimed(RecordOf(rows, i))
  }

  predicate Distinct(reqs: seq<Request>) {
    forall j, k :: 0 <= j < k < |reqs| ==> reqs[j].hash != reqs[k].hash
  }

  predicate Answerable(rows: seq<Row>, req: Request) {
    req.length != 0 && (Absent(rows, req.hash) || rows[Holder(rows, req.hash)].length == req.length)
  }

  predicate AllAnswerable(rows: seq<Row>, reqs: seq<Request>) {
    forall k :: 0 <= k < |reqs| ==> Answerable(rows, reqs[k])
  }

  function Missing(rows: seq<Row>, reqs: seq<Request>): seq<Request> {
    if |reqs| == 0 then []
    else (if Absent(rows, reqs[0].hash) then [reqs[0]] else []) + Missing(rows, reqs[1..])
  }

  /** Reserves one page after another; `None` once one of them finds no slot. */
  function ReserveEach(rows: seq<Row>, reqs: seq<Request>): (out: Option<seq<Row>>)
    ensures out.Some? ==> |out.value| == |rows|
    decreases |reqs|
  {
    if |reqs| == 0 then Some(rows)
    else
      var done := ReserveSpec(rows, reqs[0].hash, reqs[0].length);
      if done.result.Ok? && done.result.value.Claimed? then ReserveEach(done.rows, reqs[1..]) else None
  }

  function Pages(reqs: seq<Request>): set<PageHash> {
    set k | 0 <= k < |reqs| :: reqs[k].hash
  }

  /** Answers keyed by page, which is the order the source sorts them in. */
  function ReserveBatchSpec(rows: seq<Row>, reqs: seq<Request>): Done<map<PageHash, ReserveOutcome>> {
    if |reqs| == 0 || !Distinct(reqs) || !AllAnswerable(rows, reqs) then Done(rows, Err)
    else
      match ReserveEach(rows, Missing(rows, reqs))
      case None => Done(rows, Err)
      case Some(after) =>
        Done(after, Ok(map hash | hash in Pages(reqs) && !Absent(after, hash) :: Answer(after, hash)))
  }

  function ToEvicting(rows: seq<Row>, rec: Record, from: SlotState): Done<()> {
    if Guarded(rows, rec, {from}) then Done(rows[rec.slot := rows[rec.slot].(state := Evicting)], Ok(()))
    else Done(rows, Err)
  }

  predicate Commitable(rows: seq<Row>, rec: Record) {
    Guarded(rows, rec, {Reserved}) && rows[rec.slot].hash == rec.hash && rows[rec.slot].length == rec.length
  }

  function CommitSpec(rows: seq<Row>, rec: Record): Done<CommitOutcome> {
    if !Usable(rec, Reserved) then Done(rows, Err)
    else
      var held := FindHash(rows, rec.hash.value, Resident, 0);
      if held < |rows| then
        var moved := ToEvicting(rows, rec, Reserved);
        Done(moved.rows, if moved.result.Ok? then Ok(Duplicate(RecordOf(rows, held))) else Err)
      else if Commitable(rows, rec) then
        Done(rows[rec.slot := rows[rec.slot].(state := Resident)], Ok(Committed(rec.(state := Resident))))
      else Done(rows, Err)
  }

  predicate BatchArguments(recs: seq<Record>) {
    && 1 <= |recs| <= 64
    && (forall k :: 0 <= k < |recs| ==> Usable(recs[k], Reserved))
    && (forall j, k :: 0 <= j < k < |recs| ==> recs[j].slot != recs[k].slot && recs[j].hash != recs[k].hash)
  }

  /** Publishes the records in order; `None` once one of them cannot be published. */
  function PublishAll(rows: seq<Row>, recs: seq<Record>): (out: Option<seq<Row>>)
    ensures out.Some? ==> |out.value| == |rows|
    decreases |recs|
  {
    if |recs| == 0 then Some(rows)
    else if recs[0].hash.None? || FindHash(rows, recs[0].hash.value, Resident, 0) < |rows|
        || !Commitable(rows, recs[0]) then None
    else PublishAll(rows[recs[0].slot := rows[recs[0].slot].(state := Resident)], recs[1..])
  }

  function AsResident(recs: seq<Record>): seq<Record> {
    seq(|recs|, k requires 0 <= k < |recs| => recs[k].(state := Resident))
  }

  function CommitBatchSpec(rows: seq<Row>, recs: seq<Record>): Done<seq<Record>> {
    if !BatchArguments(recs) then Done(rows, Err)
    else
      match PublishAll(rows, recs)
      case Some(after) => Done(after, Ok(AsResident(recs)))
      case None => Done(rows, Err)
  }

  function ReleaseSpec(rows: seq<Row>, rec: Record): Done<()> {
    if Usable(rec, Reserved) then ToEvicting(rows, rec, Reserved) else Done(rows, Err)
  }

  function BeginEvictionSpec(rows: seq<Row>, rec: Record): Done<Record> {
    if Usable(rec, Resident) && Guarded(rows, rec, {Resident}) && rows[rec.slot].hash == rec.hash then
      Done(rows[rec.slot := rows[rec.slot].(state := Evicting)], Ok(rec.(state := Evicting)))
    else Done(rows, Err)
  }

  function FinishSpec(rows: seq<Row>, rec: Record): Done<()> {
    if rec.state in {Evicting, RetryDeallocate} && Guarded(rows, rec, {Evicting, RetryDeallocate}) then
      Done(rows[rec.slot := Row(rec.generation, Free, None, 0)], Ok(()))
    else Done(rows, Err)
  }

  function RetrySpec(rows: seq<Row>, rec: Record): Done<()> {
    if Guarded(rows, rec, {Evicting}) then
      Done(rows[rec.slot := rows[rec.slot].(state := RetryDeallocate)], Ok(()))
    else Done(rows, Err)
  }

  // ----- Runs of calls with arbitrary arguments -----

  datatype Call =
    | CallReserve(hash: PageHash, length: nat)
    | CallReserveBatch(reqs: seq<Request>)
    | CallCommit(rec: Record)
    | CallCommitBatch(recs: seq<Record>)
    | CallRelease(rec: Record)
    | CallBeginEviction(rec: Record)
    | CallFinish(rec: Record)
    | CallRetry(rec: Record)

  function After(rows: seq<Row>, call: Call): seq<Row> {
    match call
    case CallReserve(hash, length) => ReserveSpec(rows, hash, length).rows
    case CallReserveBatch(reqs) => ReserveBatchSpec(rows, reqs).rows
    case CallCommit(rec) => CommitSpec(rows, rec).rows
    case CallCommitBatch(recs) => CommitBatchSpec(rows, recs).rows
    case CallRelease(rec) => ReleaseSpec(rows, rec).rows
    case CallBeginEviction(rec) => BeginEvictionSpec(rows, rec).rows
    case CallFinish(rec) => FinishSpec(rows, rec).rows
    case CallRetry(rec) => RetrySpec(rows, rec).rows
  }

  function AfterAll(rows: seq<Row>, calls: seq<Call>): seq<Row>
    decreases |calls|
  {
    if |calls| == 0 then rows else AfterAll(After(rows, calls[0]), calls[1..])
  }

  /** Place of a row in its slot's history: lives in order, and states in order within a life. */
  function Position(r: Row): nat {
    5 * r.generation +
    match r.state
    case Reserved => 0
    case Resident => 1
    case Evicting => 2
    case RetryDeallocate => 3
    case Free => 4
  }

  /** `b` is `a`, or a later point of the slot's history; one life never changes its page. */
  predicate Later(a: Row, b: Row) {
    a == b || (Position(a) < Position(b)
               && (a.generation == b.generation && !b.state.Free? ==> a.hash == b.hash && a.length == b.length))
  }

  /** The edges of the slot life cycle. */
  predicate Edge(a: Row, b: Row) {
    match (a.state, b.state)
    case (Free, Reserved) => b.generation == a.generation + 1
    case (Reserved, Resident) => b == a.(state := Resident)
    case (Reserved, Evicting) => b == a.(state := Evicting)
    case (Resident, Evicting) => b == a.(state := Evicting)
    case (Evicting, RetryDeallocate) => b == a.(state := RetryDeallocate)
    case (Evicting, Free) => b == Row(a.generation, Free, None, 0)
    case (RetryDeallocate, Free) => b == Row(a.generation, Free, None, 0)
    case _ => false
  }

  predicate Published(rows: seq<Row>, rec: Record) {
    Guarded(rows, rec, {Resident}) && rows[rec.slot].hash == rec.hash && rows[rec.slot].length == rec.length
  }

  lemma {:induction false} PublishAllEffect(rows: seq<Row>, recs: seq<Record>)
    requires UniqueResidents(rows)
    requires PublishAll(rows, recs).Some?
    ensures var out := PublishAll(rows, recs).value;
            && |out| == |rows| && UniqueResidents(out)
            && (forall i :: 0 <= i < |rows| ==>
                out[i] == rows[i] || (rows[i].state.Reserved? && out[i] == rows[i].(state := Resident)))
            && (forall k :: 0 <= k < |recs| ==> Published(out, recs[k]))
            && (forall i :: 0 <= i < |rows| && (forall k :: 0 <= k < |recs| ==> recs[k].slot != i) ==>
                out[i] == rows[i])
    decreases |recs|
  {
    if |recs| != 0 {
      var r := recs[0];
      var next := rows[r.slot := rows[r.slot].(state := Resident)];
      PublishAllEffect(next, recs[1..]);
      var out := PublishAll(rows, recs).value;
      forall i | 0 <= i < |rows| && (forall k :: 0 <= k < |recs| ==> recs[k].slot != i)
        ensures out[i] == rows[i]
      {
        assert recs[0].slot != i;
        assert forall k :: 0 <= k < |recs[1..]| ==> recs[1..][k] == recs[k + 1];
      }
      forall k | 0 <= k < |recs|
        ensures Published(out, recs[k])
      {
        if k > 0 { assert recs[k] == recs[1..][k - 1]; }
      }
    }
  }

  /** The `limit` lowest free slots from `from` on, or fewer when there are not as many. */
  function FreeSlots(rows: seq<Row>, from: nat, limit: nat): seq<nat>
    requires from <= |rows|
    decreases limit
  {
    var i := FirstFree(rows, from);
    if limit == 0 || i == |rows| then [] else [i] + FreeSlots(rows, i + 1, limit - 1)
  }

  predicate Increasing(slots: seq<nat>) {
    forall j, k :: 0 <= j < k < |slots| ==> slots[j] < slots[k]
  }

  predicate AllFree(rows: seq<Row>, slots: seq<nat>, from: nat) {
    forall k :: 0 <= k < |slots| ==> from <= slots[k] < |rows| && rows[slots[k]].state.Free?
  }

  lemma {:induction false} FreeSlotsAreFree(rows: seq<Row>, from: nat, limit: nat)
    requires from <= |rows|
    ensures AllFree(rows, FreeSlots(rows, from, limit), from) && Increasing(FreeSlots(rows, from, limit))
    decreases limit
  {
    var i := FirstFree(rows, from);
    if limit != 0 && i != |rows| {
      FreeSlotsAreFree(rows, i + 1, limit - 1);
      IncreasingCons(rows, i, FreeSlots(rows, i + 1, limit - 1));
    }
  }

  lemma IncreasingCons(rows: seq<Row>, i: nat, rest: seq<nat>)
    requires AllFree(rows, rest, i + 1) && Increasing(rest)
    ensures Increasing([i] + rest)
  {
    forall j, k | 0 <= j < k < |[i] + rest|
      ensures ([i] + rest)[j] < ([i] + rest)[k]
    {
      assert rest[k - 1] >= i + 1;
    }
  }

  /** Below `from` the rows do not matter. */
  lemma {:induction false} FreeSlotsFrame(rows: seq<Row>, next: seq<Row>, from: nat, limit: nat)
    requires from <= |rows| == |next|
    requires forall i :: from <= i < |rows| ==> rows[i] == next[i]
    ensures FirstFree(next, from) == FirstFree(rows, from)
            && FreeSlots(next, from, limit) == FreeSlots(rows, from, limit)
    decreases limit
  {
    var i := FirstFree(rows, from);
    assert FirstFree(next, from) == i;
    if limit != 0 && i < |rows| { FreeSlotsFrame(rows, next, i + 1, limit - 1); }
  }

  /** Occupied rows are skipped. */
  lemma SkipOccupied(rows: seq<Row>, from: nat, limit: nat)
    requires from < |rows| && forall j :: 0 <= j <= from ==> !rows[j].state.Free?
    ensures FreeSlots(rows, 0, limit) == FreeSlots(rows, from + 1, limit)
  {
    assert FirstFree(rows, 0) == FirstFree(rows, from + 1);
  }

  lemma {:induction false} ClaimOne(rows: seq<Row>, reqs: seq<Request>)
    requires |reqs| != 0
    requires var done := ReserveSpec(rows, reqs[0].hash, reqs[0].length); done.result.Ok? && done.result.value.Claimed?
    ensures var i := FirstFree(rows, 0);
            && i < |rows|
            && ReserveSpec(rows, reqs[0].hash, reqs[0].length).rows
               == rows[i := Row(rows[i].generation + 1, Reserved, Some(reqs[0].hash), reqs[0].length)]
  {
  }

  /** Claiming the lowest free slot leaves the next ones in line. */
  lemma FreeSlotsAfterClaim(rows: seq<Row>, row: Row, limit: nat)
    requires FirstFree(rows, 0) < |rows| && !row.state.Free? && limit != 0
    ensures var i := FirstFree(rows, 0);
            FreeSlots(rows, 0, limit) == [i] + FreeSlots(rows[i := row], 0, limit - 1)
  {
    var i := FirstFree(rows, 0);
    var next := rows[i := row];
    SkipOccupied(next, i, limit - 1);
    FreeSlotsFrame(rows, next, i + 1, limit - 1);
  }

  /** The first request takes the lowest free slot and leaves the rest to the next ones. */
  lemma ClaimHead(rows: seq<Row>, reqs: seq<Request>)
    requires ReserveEach(rows, reqs).Some? && |reqs| != 0
    ensures var i := FirstFree(rows, 0);
            && i < |rows|
            && var next := rows[i := Row(rows[i].generation + 1, Reserved, Some(reqs[0].hash), reqs[0].length)];
               ReserveEach(rows, reqs) == ReserveEach(next, reqs[1..])
                   && FreeSlots(rows, 0, |reqs|) == [i] + FreeSlots(next, 0, |reqs[1..]|)
  {
    ClaimOne(rows, reqs);
    var i := FirstFree(rows, 0);
    FreeSlotsAfterClaim(rows, Row(rows[i].generation + 1, Reserved, Some(reqs[0].hash), reqs[0].length), |reqs|);
  }

  /** Reserving one by one hands the requests, in order, the lowest free slots. */
  lemma {:induction false} ReserveEachTakesLowest(rows: seq<Row>, reqs: seq<Request>)
    requires ReserveEach(rows, reqs).Some?
    ensures |FreeSlots(rows, 0, |reqs|)| == |reqs|
    ensures ReserveEach(rows, reqs).value == ClaimAll(rows, FreeSlots(rows, 0, |reqs|), reqs)
    decreases |reqs|
  {
    if |reqs| != 0 {
      ClaimHead(rows, reqs);
      var i := FirstFree(rows, 0);
      var next := rows[i := Row(rows[i].generation + 1, Reserved, Some(reqs[0].hash), reqs[0].length)];
      ReserveEachTakesLowest(next, reqs[1..]);
      ClaimAllCons(rows, i, FreeSlots(next, 0, |reqs[1..]|), reqs);
    }
  }

  lemma ClaimAllCons(rows: seq<Row>, i: nat, rest: seq<nat>, reqs: seq<Request>)
    requires |reqs| != 0 && i < |rows|
    ensures var row := Row(rows[i].generation + 1, Reserved, Some(reqs[0].hash), reqs[0].length);
            ClaimAll(rows, [i] + rest, reqs) == ClaimAll(rows[i := row], rest, reqs[1..])
  {
    assert ([i] + rest)[1..] == rest;
  }

  /** The requests put into the slots, in order. */
  function ClaimAll(rows: seq<Row>, slots: seq<nat>, reqs: seq<Request>): (out: seq<Row>)
    ensures |out| == |rows|
    decreases |slots|
  {
    if |slots| == 0 || |reqs| == 0 || slots[0] >= |rows| then rows
    else
      var row := Row(rows[slots[0]].generation + 1, Reserved, Some(reqs[0].hash), reqs[0].length);
      ClaimAll(rows[slots[0] := row], slots[1..], reqs[1..])
  }

  lemma {:induction false} ClaimAllAt(rows: seq<Row>, slots: seq<nat>, reqs: seq<Request>, k: nat)
    requires |slots| == |reqs| && AllFree(rows, slots, 0) && Increasing(slots) && k < |slots|
    ensures ClaimAll(rows, slots, reqs)[slots[k]]
            == Row(rows[slots[k]].generation + 1, Reserved, Some(reqs[k].hash), reqs[k].length)
    decreases |slots|
  {
    var next := rows[slots[0] := Row(rows[slots[0]].generation + 1, Reserved, Some(reqs[0].hash), reqs[0].length)];
    if k > 0 {
      ClaimAllAt(next, slots[1..], reqs[1..], k - 1);
    } else {
      ClaimAllElsewhere(next, slots[1..], reqs[1..], slots[0]);
    }
  }

  lemma {:induction false} ClaimAllElsewhere(rows: seq<Row>, slots: seq<nat>, reqs: seq<Request>, i: nat)
    requires i < |rows| && i !in slots
    ensures ClaimAll(rows, slots, reqs)[i] == rows[i]
    decreases |slots|
  {
    if |slots| != 0 && |reqs| != 0 && slots[0] < |rows| {
      ClaimAllElsewhere(rows[slots[0] :=
                             Row(rows[slots[0]].generation + 1, Reserved, Some(reqs[0].hash), reqs[0].length)],
                             slots[1..], reqs[1..], i);
    }
  }

  /** What reserving one by one leaves of each row: untouched, or a free one claimed for the `k`-th request. */
  lemma EachRow(rows: seq<Row>, reqs: seq<Request>, i: nat) returns (k: nat)
    requires ReserveEach(rows, reqs).Some? && i < |rows|
    ensures var out := ReserveEach(rows, reqs).value;
            out[i] == rows[i]
                || (rows[i].state.Free? && k < |reqs|
                    && out[i] == Row(rows[i].generation + 1, Reserved, Some(reqs[k].hash), reqs[k].length))
  {
    ReserveEachTakesLowest(rows, reqs);
    FreeSlotsAreFree(rows, 0, |reqs|);
    var slots := FreeSlots(rows, 0, |reqs|);
    k := 0;
    if i in slots {
      k :| 0 <= k < |slots| && slots[k] == i;
      ClaimAllAt(rows, slots, reqs, k);
    } else {
      ClaimAllElsewhere(rows, slots, reqs, i);
    }
  }

  /** A batch follows the slot life cycle: free slots become claimed, nothing else moves. */
  lemma BatchFollowsEdges(rows: seq<Row>, reqs: seq<Request>)
    requires TableOk(rows) && UniqueResidents(rows)
    requires ReserveEach(rows, reqs).Some?
    ensures var out := ReserveEach(rows, reqs).value;
            && |out| == |rows| && TableOk(out) && UniqueResidents(out)
            && forall i :: 0 <= i < |rows| ==> out[i] == rows[i] || Edge(rows[i], out[i])
  {
    var out := ReserveEach(rows, reqs).value;
    forall i | 0 <= i < |rows|
      ensures out[i] == rows[i]
              || (rows[i].state.Free? && out[i].state.Reserved? && out[i].hash.Some? && Edge(rows[i], out[i]))
    {
      var k := EachRow(rows, reqs, i);
    }
  }

  lemma {:induction false} MissingIsSublist(rows: seq<Row>, reqs: seq<Request>)
    ensures forall r :: r in Missing(rows, reqs) <==> r in reqs && Absent(rows, r.hash)
  {
    if |reqs| != 0 {
      MissingIsSublist(rows, reqs[1..]);
      assert reqs == [reqs[0]] + reqs[1..];
    }
  }

  /** What a batch leaves of each row: untouched, or newly claimed for one of its absent pages. */
  lemma BatchRow(rows: seq<Row>, reqs: seq<Request>, i: nat) returns (k: nat)
    requires ReserveEach(rows, Missing(rows, reqs)).Some?
    requires i < |rows|
    ensures var out := ReserveEach(rows, Missing(rows, reqs)).value;
            && |out| == |rows|
            && (out[i] == rows[i] || (rows[i].state.Free? && k < |reqs| && Absent(rows, reqs[k].hash)
                                      && out[i] == Row(rows[i].generation + 1, Reserved, Some(reqs[k].hash),
                                                       reqs[k].length)))
  {
    var missing := Missing(rows, reqs);
    var n := EachRow(rows, missing, i);
    k := 0;
    if ReserveEach(rows, missing).value[i] != rows[i] {
      MissingIsSublist(rows, reqs);
      assert missing[n] in missing;
      k :| 0 <= k < |reqs| && reqs[k] == missing[n];
    }
  }

  /** Every request of an accepted batch is answered, with its own page and length. */
  lemma BatchAnswersEveryRequest(rows: seq<Row>, reqs: seq<Request>, n: nat)
    requires ReserveBatchSpec(rows, reqs).result.Ok?
    requires n < |reqs|
    ensures var answers := ReserveBatchSpec(rows, reqs).result.value;
            && reqs[n].hash in answers
            && answers[reqs[n].hash].record.hash == Some(reqs[n].hash)
            && answers[reqs[n].hash].record.length == reqs[n].length
  {
    var missing := Missing(rows, reqs);
    var out := ReserveEach(rows, missing).value;
    var hash := reqs[n].hash;
    RequestIsHeld(rows, reqs, n);
    var i := Holder(out, hash);
    var k := BatchRow(rows, reqs, i);
    assert Answerable(rows, reqs[n]);
    if out[i] == rows[i] { HolderIsKept(rows, reqs, n); }
    assert out[i].length == reqs[n].length;
    AnswerIs(rows, reqs, n);
  }

  lemma AnswerIs(rows: seq<Row>, reqs: seq<Request>, n: nat)
    requires ReserveBatchSpec(rows, reqs).result.Ok?
    requires n < |reqs| && !Absent(ReserveEach(rows, Missing(rows, reqs)).value, reqs[n].hash)
    ensures var answers := ReserveBatchSpec(rows, reqs).result.value;
            reqs[n].hash in answers
                && answers[reqs[n].hash] == Answer(ReserveEach(rows, Missing(rows, reqs)).value, reqs[n].hash)
  {
  }

  lemma RequestIsHeld(rows: seq<Row>, reqs: seq<Request>, n: nat)
    requires ReserveEach(rows, Missing(rows, reqs)).Some? && n < |reqs|
    ensures !Absent(ReserveEach(rows, Missing(rows, reqs)).value, reqs[n].hash)
  {
    var missing := Missing(rows, reqs);
    var out := ReserveEach(rows, missing).value;
    MissingIsSublist(rows, reqs);
    if Absent(rows, reqs[n].hash) {
      var k :| 0 <= k < |missing| && missing[k] == reqs[n];
      ReserveEachTakesLowest(rows, missing);
      FreeSlotsAreFree(rows, 0, |missing|);
      var slots := FreeSlots(rows, 0, |missing|);
      ClaimAllAt(rows, slots, missing, k);
      assert out[slots[k]].hash == Some(reqs[n].hash);
    } else {
      var i := Holder(rows, reqs[n].hash);
      var k := BatchRow(rows, reqs, i);
      assert out[i] == rows[i];
    }
  }

  lemma HolderIsKept(rows: seq<Row>, reqs: seq<Request>, n: nat)
    requires ReserveEach(rows, Missing(rows, reqs)).Some? && n < |reqs|
    ensures var out := ReserveEach(rows, Missing(rows, reqs)).value;
            !Absent(out, reqs[n].hash)
                && (!Absent(rows, reqs[n].hash) ==> Holder(out, reqs[n].hash) == Holder(rows, reqs[n].hash))
  {
    RequestIsHeld(rows, reqs, n);
    var out := ReserveEach(rows, Missing(rows, reqs)).value;
    if !Absent(rows, reqs[n].hash) {
      forall i | 0 <= i < |rows|
        ensures out[i] == rows[i]
                || (rows[i].state.Free? && out[i].state.Reserved? && out[i].hash != Some(reqs[n].hash))
      {
        var k := BatchRow(rows, reqs, i);
      }
    }
  }

  lemma CommitFollowsEdges(rows: seq<Row>, rec: Record)
    requires TableOk(rows) && UniqueResidents(rows)
    ensures var out := CommitSpec(rows, rec).rows;
            && |out| == |rows| && TableOk(out) && UniqueResidents(out)
            && forall i :: 0 <= i < |rows| ==> out[i] == rows[i] || Edge(rows[i], out[i])
  {
  }

  lemma RowCallFollowsEdges(rows: seq<Row>, call: Call)
    requires TableOk(rows) && UniqueResidents(rows) && !call.CallCommitBatch? && !call.CallReserveBatch?
             && !call.CallCommit?
    ensures var out := After(rows, call);
            && |out| == |rows| && TableOk(out) && UniqueResidents(out)
            && forall i :: 0 <= i < |rows| ==> out[i] == rows[i] || Edge(rows[i], out[i])
  {
  }

  /** One call moves every row along an edge or not at all, and keeps both constraints. */
  lemma CallFollowsEdges(rows: seq<Row>, call: Call)
    requires TableOk(rows) && UniqueResidents(rows)
    ensures var out := After(rows, call);
            && |out| == |rows| && TableOk(out) && UniqueResidents(out)
            && forall i :: 0 <= i < |rows| ==> out[i] == rows[i] || Edge(rows[i], out[i])
  {
    match call
    case CallCommitBatch(recs) =>
      if BatchArguments(recs) && PublishAll(rows, recs).Some? { PublishAllEffect(rows, recs); }
    case CallReserveBatch(reqs) =>
      if ReserveEach(rows, Missing(rows, reqs)).Some? { BatchFollowsEdges(rows, Missing(rows, reqs)); }
    case CallCommit(rec) => CommitFollowsEdges(rows, rec);
    case _ => RowCallFollowsEdges(rows, call);
  }

  /**
   No ABA: whatever calls are made, with whatever records, each slot only moves forward
   through its lives, each life keeps the page it was reserved for until it is freed, and
   no page is ever resident in two slots.
   */
  lemma {:induction false} SlotsNeverRewind(rows: seq<Row>, calls: seq<Call>)
    requires TableOk(rows) && UniqueResidents(rows)
    ensures var out := AfterAll(rows, calls);
            && |out| == |rows| && TableOk(out) && UniqueResidents(out)
            && forall i :: 0 <= i < |rows| ==> Later(rows[i], out[i])
    decreases |calls|
  {
    if |calls| != 0 {
      CallFollowsEdges(rows, calls[0]);
      SlotsNeverRewind(After(rows, calls[0]), calls[1..]);
    }
  }

  lemma StaleBatchIsRefused(rows: seq<Row>, recs: seq<Record>, k: nat)
    requires UniqueResidents(rows)
    requires k < |recs| && recs[k].slot < |rows| && recs[k].generation != rows[recs[k].slot].generation
    ensures CommitBatchSpec(rows, recs) == Done(rows, Err)
  {
    if PublishAll(rows, recs).Some? {
      PublishAllEffect(rows, recs);
      assert false;
    }
  }

  /** A record of an earlier life can never change its slot again, whatever happened in between. */
  lemma StaleRecordIsInert(rows: seq<Row>, calls: seq<Call>, rec: Record)
    requires TableOk(rows) && UniqueResidents(rows)
    requires rec.slot < |rows| && rec.generation < rows[rec.slot].generation
    ensures var out := AfterAll(rows, calls);
            && (forall call ::
                  call in {CallCommit(rec), CallRelease(rec), CallBeginEviction(rec),
                           CallFinish(rec), CallRetry(rec)} ==>
                    After(out, call) == out)
            && (forall recs :: rec in recs ==> After(out, CallCommitBatch(recs)) == out)
  {
    SlotsNeverRewind(rows, calls);
    var out := AfterAll(rows, calls);
    forall recs | rec in recs
      ensures After(out, CallCommitBatch(recs)) == out
    {
      var k :| 0 <= k < |recs| && recs[k] == rec;
      StaleBatchIsRefused(out, recs, k);
    }
  }

  /** Reserving always opens a new life: no record made before it names the claimed life. */
  lemma ReservationIsFresh(rows: seq<Row>, calls: seq<Call>, rec: Record, hash: PageHash, length: nat)
    requires TableOk(rows) && UniqueResidents(rows)
    requires rec.slot < |rows| && rec.generation <= rows[rec.slot].generation
    ensures var done := ReserveSpec(AfterAll(rows, calls), hash, length);
            done.result.Ok? && done.result.value.Claimed? && done.result.value.record.slot == rec.slot
            ==> rec.generation < done.result.value.record.generation
  {
    SlotsNeverRewind(rows, calls);
  }

  // ----- The table as an object -----

  lemma {:induction false} MissingAppend(rows: seq<Row>, reqs: seq<Request>, k: nat)
    requires k < |reqs|
    ensures Missing(rows, reqs[..k + 1]) == Missing(rows, reqs[..k])
            + (if Absent(rows, reqs[k].hash) then [reqs[k]] else [])
    decreases k
  {
    if k > 0 {
      MissingAppend(rows, reqs[1..], k - 1);
      assert reqs[..k + 1][1..] == reqs[1..][..k] && reqs[..k][1..] == reqs[1..][..k - 1];
    }
  }

  /** The pages a batch still has to place, unless one of its requests is refused. */
  method CheckRequests(rows: seq<Row>, reqs: seq<Request>) returns (missing: Option<seq<Request>>)
    ensures missing.Some? <==> Distinct(reqs) && AllAnswerable(rows, reqs)
    ensures missing.Some? ==> missing.value == Missing(rows, reqs)
    ensures missing.Some? ==> forall r :: r in missing.value ==> Absent(rows, r.hash) && r.length != 0
  {
    var seen: set<PageHash> := {};
    for k := 0 to |reqs|
      invariant seen == Pages(reqs[..k])
      invariant forall i, j :: 0 <= i < j < k ==> reqs[i].hash != reqs[j].hash
    {
      if reqs[k].hash in seen { return None; }
      seen := seen + {reqs[k].hash};
    }
    var found: seq<Request> := [];
    for k := 0 to |reqs|
      invariant found == Missing(rows, reqs[..k])
      invariant forall i :: 0 <= i < k ==> Answerable(rows, reqs[i])
    {
      if !Answerable(rows, reqs[k]) { return None; }
      MissingAppend(rows, reqs, k);
      if Absent(rows, reqs[k].hash) { found := found + [reqs[k]]; }
    }
    assert reqs[..|reqs|] == reqs;
    MissingIsSublist(rows, reqs);
    return Some(found);
  }

  lemma {:induction false} PlaceOne(rows: seq<Row>, reqs: seq<Request>)
    requires |reqs| != 0 && reqs[0].length != 0 && FreeSlots(rows, 0, |reqs|) != []
    requires forall i :: 0 <= i < |rows| && rows[i].state.Resident? ==> rows[i].hash != Some(reqs[0].hash)
    ensures var i := FirstFree(rows, 0);
            && i < |rows| && i == FreeSlots(rows, 0, |reqs|)[0]
            && var next := rows[i := Row(rows[i].generation + 1, Reserved, Some(reqs[0].hash), reqs[0].length)];
               if rows[i].generation + 1 > I64_MAX then ReserveEach(rows, reqs) == None
               else ReserveEach(rows, reqs) == ReserveEach(next, reqs[1..])
                    && FreeSlots(next, 0, |reqs| - 1) == FreeSlots(rows, 0, |reqs|)[1..]
  {
    var i := FirstFree(rows, 0);
    assert FindHash(rows, reqs[0].hash, Resident, 0) == |rows|;
    FreeSlotsAfterClaim(rows, Row(rows[i].generation + 1, Reserved, Some(reqs[0].hash), reqs[0].length), |reqs|);
  }

  /** Where the filling loop stands after `k` requests. */
  ghost predicate Filling(rows: seq<Row>, missing: seq<Request>, free: seq<nat>, next: seq<Row>, k: nat) {
    && |next| == |rows| && k <= |missing| == |free|
    && ReserveEach(rows, missing) == ReserveEach(next, missing[k..])
    && FreeSlots(next, 0, |missing| - k) == free[k..]
    && forall i :: 0 <= i < |rows| && next[i].state.Resident? ==> next[i] == rows[i]
  }

  lemma FillNext(rows: seq<Row>, missing: seq<Request>, free: seq<nat>, next: seq<Row>, k: nat)
    requires Filling(rows, missing, free, next, k) && k < |missing|
    requires Absent(rows, missing[k].hash) && missing[k].length != 0
    ensures free[k] < |next|
    ensures var i := free[k];
            if next[i].generation + 1 > I64_MAX then ReserveEach(rows, missing) == None
            else Filling(rows, missing, free,
                         next[i := Row(next[i].generation + 1, Reserved, Some(missing[k].hash), missing[k].length)],
                         k + 1)
  {
    assert free[k..][0] == free[k] && free[k..][1..] == free[k + 1..];
    assert missing[k..][0] == missing[k] && missing[k..][1..] == missing[k + 1..];
    PlaceOne(next, missing[k..]);
  }

  /** Reads the free slots once and fills them; the same as reserving the pages one by one. */
  method PlaceMissing(rows: seq<Row>, missing: seq<Request>) returns (out: Option<seq<Row>>)
    requires forall r :: r in missing ==> Absent(rows, r.hash) && r.length != 0
    ensures out == ReserveEach(rows, missing)
  {
    var free := FreeSlots(rows, 0, |missing|);
    if |free| != |missing| {
      if ReserveEach(rows, missing).Some? { ReserveEachTakesLowest(rows, missing); }
      return None;
    }
    var next := rows;
    assert missing[0..] == missing && free[0..] == free;
    for k := 0 to |missing|
      invariant Filling(rows, missing, free, next, k)
    {
      assert missing[k] in missing;
      FillNext(rows, missing, free, next, k);
      var req, i := missing[k], free[k];
      if next[i].generation + 1 > I64_MAX { return None; }
      next := next[i := Row(next[i].generation + 1, Reserved, Some(req.hash), req.length)];
    }
    return Some(next);
  }

  class SlotTable {
    var rows: seq<Row>

    constructor (slots: nat)
      ensures |rows| == slots && forall i :: 0 <= i < slots ==> rows[i] == Row(0, Free, None, 0)
    {
      rows := seq(slots, _ => Row(0, Free, None, 0));
    }

    method Reserve(hash: PageHash, length: nat) returns (result: Result<ReserveOutcome>)
      modifies this
      ensures Done(rows, result) == ReserveSpec(old(rows), hash, length)
    {
      if length == 0 { return Err; }
      var held := FindHash(rows, hash, Resident, 0);
      if held < |rows| { return Ok(AlreadyResident(RecordOf(rows, held))); }
      var i := FirstFree(rows, 0);
      if i == |rows| || rows[i].generation + 1 > I64_MAX { return Err; }
      rows := rows[i := Row(rows[i].generation + 1, Reserved, Some(hash), length)];
      return Ok(Claimed(RecordOf(rows, i)));
    }

    /** One transaction: a page that cannot be placed takes the whole batch back. */
    method ReserveBatch(reqs: seq<Request>) returns (result: Result<map<PageHash, ReserveOutcome>>)
      modifies this
      ensures Done(rows, result) == ReserveBatchSpec(old(rows), reqs)
    {
      if |reqs| == 0 { return Err; }
      var wanted := CheckRequests(rows, reqs);
      if wanted.None? { return Err; }
      var next := PlaceMissing(rows, wanted.value);
      if next.None? { return Err; }
      rows := next.value;
      return Ok(map hash | hash in Pages(reqs) && !Absent(rows, hash) :: Answer(rows, hash));
    }

    method CommitSlot(rec: Record) returns (result: Result<CommitOutcome>)
      modifies this
      ensures Done(rows, result) == CommitSpec(old(rows), rec)
    {
      if !Usable(rec, Reserved) { return Err; }
      var held := FindHash(rows, rec.hash.value, Resident, 0);
      if held < |rows| {
        var existing := RecordOf(rows, held);
        if !Guarded(rows, rec, {Reserved}) { return Err; }
        rows := rows[rec.slot := rows[rec.slot].(state := Evicting)];
        return Ok(Duplicate(existing));
      }
      if !Commitable(rows, rec) { return Err; }
      rows := rows[rec.slot := rows[rec.slot].(state := Resident)];
      return Ok(Committed(rec.(state := Resident)));
    }

    /** One transaction: all the records become resident, or none does. */
    method CommitBatch(recs: seq<Record>) returns (result: Result<seq<Record>>)
      modifies this
      ensures Done(rows, result) == CommitBatchSpec(old(rows), recs)
    {
      if !BatchArguments(recs) { return Err; }
      var next := rows;
      var committed: seq<Record> := [];
      for k := 0 to |recs|
        invariant |next| == |rows| && PublishAll(rows, recs) == PublishAll(next, recs[k..])
        invariant committed == AsResident(recs)[..k]
      {
        assert recs[k..][0] == recs[k] && recs[k..][1..] == recs[k + 1..];
        if FindHash(next, recs[k].hash.value, Resident, 0) < |next| || !Commitable(next, recs[k]) { return Err; }
        next := next[recs[k].slot := next[recs[k].slot].(state := Resident)];
        committed := committed + [recs[k].(state := Resident)];
      }
      assert recs[|recs|..] == [] && committed == AsResident(recs);
      rows := next;
      return Ok(committed);
    }

    method Release(rec: Record) returns (result: Result<()>)
      modifies this
      ensures Done(rows, result) == ReleaseSpec(old(rows), rec)
    {
      if !Usable(rec, Reserved) || !Guarded(rows, rec, {Reserved}) { return Err; }
      rows := rows[rec.slot := rows[rec.slot].(state := Evicting)];
      return Ok(());
    }

    method BeginEviction(rec: Record) returns (result: Result<Record>)
      modifies this
      ensures Done(rows, result) == BeginEvictionSpec(old(rows), rec)
    {
      if !Usable(rec, Resident) || !Guarded(rows, rec, {Resident}) || rows[rec.slot].hash != rec.hash { return Err; }
      rows := rows[rec.slot := rows[rec.slot].(state := Evicting)];
      return Ok(rec.(state := Evicting));
    }

    method FinishDeallocation(rec: Record) returns (result: Result<()>)
      modifies this
      ensures Done(rows, result) == FinishSpec(old(rows), rec)
    {
      if rec.state !in {Evicting, RetryDeallocate} || !Guarded(rows, rec, {Evicting, RetryDeallocate}) { return Err; }
      rows := rows[rec.slot := Row(rec.generation, Free, None, 0)];
      return Ok(());
    }

    method MarkRetry(rec: Record) returns (result: Result<()>)
      modifies this
      ensures Done(rows, result) == RetrySpec(old(rows), rec)
    {
      if !Guarded(rows, rec, {Evicting}) { return Err; }
      rows := rows[rec.slot := rows[rec.slot].(state := RetryDeallocate)];
      return Ok(());
    }
  }
}
