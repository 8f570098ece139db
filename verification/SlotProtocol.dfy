/**
 The crash-safe slot protocol (crates/mirage-cache/src: insert.rs, evict.rs, reserve.rs,
 reconcile.rs, recover.rs, slot.rs). A slot lives in three stores: its table row, its
 64-byte sidecar record and its payload bytes. Table calls are durable when they return;
 sidecar and payload writes are durable once flushed. Any number of inserters and
 evictors interleave, one owner per slot, and a crash may follow any single step.
 */
module SlotProtocol {
  import opened Basics
  import opened CacheTable

  /** Page size and content hash; any function may serve as the hash. */
  datatype Config = Config(pageSize: nat, digest: Bytes -> PageHash)

  // ----- The sidecar and payload of one slot -----

  datatype Meta = Meta(generation: nat, state: SlotState, hash: PageHash, length: nat)

  /** What a sidecar read returns: a record whose checksum holds, or garbage. */
  datatype Sidecar = Known(meta: Meta) | Torn

  /**
   `seen` is what a read returns now, `disk` every value a crash may leave behind.
   A payload that is not `settled` may hold anything after a crash.
   */
  datatype Cell = Cell(seen: Sidecar, disk: set<Sidecar>, payload: Bytes, settled: bool)

  function MetaFor(generation: nat, state: SlotState, hash: Option<PageHash>, length: nat): Meta {
    Meta(generation, state, if hash.Some? then hash.value else ZERO_HASH, length)
  }

  function FreeMeta(generation: nat): Meta {
    MetaFor(generation, Free, None, 0)
  }

  predicate MetadataMatches(row: Row, s: Sidecar) {
    s.Known? && s.meta == MetaFor(row.generation, row.state, row.hash, row.length)
  }

  function WriteSide(c: Cell, m: Meta): Cell {
    c.(seen := Known(m), disk := c.disk + {Known(m), Torn})
  }

  function FlushCell(c: Cell): Cell {
    c.(disk := {c.seen})
  }

  function FlushSides(cells: seq<Cell>): seq<Cell> {
    seq(|cells|, i requires 0 <= i < |cells| => FlushCell(cells[i]))
  }

  function FlushPayloads(cells: seq<Cell>): seq<Cell> {
    seq(|cells|, i requires 0 <= i < |cells| => cells[i].(settled := true))
  }

  function WritePayload(c: Cell, bytes: Bytes): Cell {
    c.(payload := bytes + c.payload[Min(|bytes|, |c.payload|)..], settled := false)
  }

  predicate Holds(cfg: Config, c: Cell, hash: PageHash, length: nat) {
    length <= |c.payload| && cfg.digest(c.payload[..length]) == hash
  }

  /** The page is on stable storage, whole. */
  predicate Good(cfg: Config, c: Cell, hash: PageHash, length: nat) {
    c.settled && Holds(cfg, c, hash, length)
  }

  // ----- Owners -----

  datatype InsertStage = Claim | MarkWritten | Marked | Written | Flushed | Rehashed | SealWritten | Sealed

  datatype DiscardStage = Leaving | TombWritten | Tombed | Zeroing | Zeroed | FreeWritten | FreeFlushed

  datatype Task =
    | Idle
    | Inserting(rec: Record, bytes: Bytes, stage: InsertStage)
    | Discarding(rec: Record, at: DiscardStage)

  datatype World = World(rows: seq<Row>, cells: seq<Cell>, tasks: seq<Task>)

  predicate Shaped(w: World) {
    |w.rows| == |w.cells| == |w.tasks|
  }

  function Initial(cfg: Config, slots: nat): World {
    World(seq(slots, _ => Row(0, Free, None, 0)),
          seq(slots, _ => Cell(Known(FreeMeta(0)), {Known(FreeMeta(0))}, Zeros(cfg.pageSize), true)),
          seq(slots, _ => Idle))
  }

  // ----- Steps -----

  datatype Event =
    | Reserve(hash: PageHash, bytes: Bytes)                     // insert_page: claim a slot
    | SideWrite(slot: nat)                                      // write_metadata
    | SideFlush(slot: nat)                                      // flush_metadata
    | PayloadWrite(slot: nat)                                   // write_slot, or the zeroing of deallocate_slot
    | PayloadFlush(slot: nat)                                   // flush, or the sync of deallocate_slot
    | Rehash(slot: nat)                                         // read back and hash
    | Commit(slot: nat)                                         // commit_cache_slot
    | CommitAll(slots: seq<nat>)                                // commit_cache_slots_batch
    | Abandon(slot: nat)                                        // SlotReservation dropped: release_cache_reservation
    | BeginEvict(slot: nat)                                     // begin_cache_eviction
    | Finish(slot: nat)                                         // finish_cache_deallocation
    | DeallocateFailed(slot: nat)                               // mark_cache_deallocation_retry
    | GiveUp(slot: nat)                                         // an error returned in mid discard
    | Skip(slot: nat)                                           // a sidecar error ignored while dropping
    | Recover(slot: nat)                                        // reconcile takes up a slot
    | Sync                                                      // flush_metadata at the end of reconcile
    | Rot(slot: nat, seen: Sidecar)                             // outside damage that forges no resident record
    | Crash(sides: seq<Sidecar>, payloads: seq<Bytes>)

  /** What an inserter or a discarder writes into the sidecar next. */
  function NextMeta(t: Task): Meta
    requires !t.Idle?
  {
    match t
    case Inserting(rec, _, stage) =>
      MetaFor(rec.generation, if stage.Claim? then Reserved else Resident, rec.hash, rec.length)
    case Discarding(rec, at) =>
      if at.Leaving? then MetaFor(rec.generation, Evicting, rec.hash, rec.length) else FreeMeta(rec.generation)
  }

  predicate AtSideWrite(t: Task) {
    (t.Inserting? && (t.stage.Claim? || t.stage.Rehashed?)) || (t.Discarding? && (t.at.Leaving? || t.at.Zeroed?))
  }

  predicate AtSideFlush(t: Task) {
    (t.Inserting? && (t.stage.MarkWritten? || t.stage.SealWritten?))
        || (t.Discarding? && (t.at.TombWritten? || t.at.FreeWritten?))
  }

  predicate AtPayloadWrite(t: Task) {
    (t.Inserting? && t.stage.Marked?) || (t.Discarding? && t.at.Tombed?)
  }

  predicate AtPayloadFlush(t: Task) {
    (t.Inserting? && t.stage.Written?) || (t.Discarding? && t.at.Zeroing?)
  }

  function Advance(t: Task): Task {
    match t
    case Idle => Idle
    case Inserting(rec, bytes, stage) =>
      Inserting(rec, bytes,
                match stage
                case Claim => MarkWritten
                case MarkWritten => Marked
                case Marked => Written
                case Written => Flushed
                case Flushed => Rehashed
                case Rehashed => SealWritten
                case SealWritten => Sealed
                case Sealed => Sealed)
    case Discarding(rec, at) =>
      Discarding(rec,
                 match at
                 case Leaving => TombWritten
                 case TombWritten => Tombed
                 case Tombed => Zeroing
                 case Zeroing => Zeroed
                 case Zeroed => FreeWritten
                 case FreeWritten => FreeFlushed
                 case FreeFlushed => FreeFlushed)
  }

  datatype Action = ReclaimReserved | FinishEviction | RewriteFreeMetadata | QuarantineResident

  /** What reconcile does about a slot: nothing when its row is settled and its sidecar agrees. */
  function ActionFor(row: Row, seen: Sidecar): Option<Action> {
    match row.state
    case Free => if MetadataMatches(row, seen) then None else Some(RewriteFreeMetadata)
    case Reserved => Some(ReclaimReserved)
    case Evicting => Some(FinishEviction)
    case RetryDeallocate => Some(FinishEviction)
    case Resident => if MetadataMatches(row, seen) then None else Some(QuarantineResident)
  }

  ghost predicate Enabled(cfg: Config, w: World, e: Event)
    requires Shaped(w)
  {
    match e
    case Reserve(hash, bytes) => 1 <= |bytes| <= cfg.pageSize && Claims(w, hash, |bytes|)
                                 && w.tasks[FirstFree(w.rows, 0)].Idle?
    case SideWrite(i) => i < |w.rows| && AtSideWrite(w.tasks[i])
    case SideFlush(i) => i < |w.rows| && AtSideFlush(w.tasks[i])
    case PayloadWrite(i) => i < |w.rows| && AtPayloadWrite(w.tasks[i])
    case PayloadFlush(i) => i < |w.rows| && AtPayloadFlush(w.tasks[i])
    case Rehash(i) =>
      && i < |w.rows| && w.tasks[i].Inserting? && w.tasks[i].stage.Flushed?
      && w.tasks[i].rec.hash.Some? && Holds(cfg, w.cells[i], w.tasks[i].rec.hash.value, w.tasks[i].rec.length)
    case Commit(i) => i < |w.rows| && w.tasks[i].Inserting? && w.tasks[i].stage.Sealed?
    case CommitAll(slots) => forall k :: 0 <= k < |slots| ==>
        slots[k] < |w.rows| && w.tasks[slots[k]].Inserting? && w.tasks[slots[k]].stage.Sealed?
    case Abandon(i) => i < |w.rows| && w.tasks[i].Inserting?
    case BeginEvict(i) => i < |w.rows| && w.tasks[i].Idle? && w.rows[i].state.Resident?
    case Finish(i) => i < |w.rows| && w.tasks[i].Discarding? && w.tasks[i].at.FreeFlushed?
    case DeallocateFailed(i) => i < |w.rows| && w.tasks[i].Discarding?
                                && (w.tasks[i].at.Tombed? || w.tasks[i].at.Zeroing?)
    case GiveUp(i) => i < |w.rows| && w.tasks[i].Discarding?
    case Skip(i) => i < |w.rows| && w.tasks[i].Discarding? && (AtSideWrite(w.tasks[i]) || AtSideFlush(w.tasks[i]))
    case Recover(i) => i < |w.rows| && w.tasks[i].Idle? && ActionFor(w.rows[i], w.cells[i].seen).Some?
    case Sync => true
    case Rot(i, seen) => i < |w.rows| && !(seen.Known? && seen.meta.state.Resident?)
    case Crash(sides, payloads) =>
      && |sides| == |payloads| == |w.rows|
      && forall i :: 0 <= i < |w.rows| ==> Survives(cfg, w.cells[i], sides[i], payloads[i])
  }

  /** A crash leaves one of the values on disk, and any payload that was not settled. */
  predicate Survives(cfg: Config, c: Cell, side: Sidecar, payload: Bytes) {
    side in c.disk && |payload| == cfg.pageSize && (c.settled ==> payload == c.payload)
  }

  predicate Claims(w: World, hash: PageHash, length: nat)
    requires Shaped(w)
  {
    var done := ReserveSpec(w.rows, hash, length);
    done.result.Ok? && done.result.value.Claimed?
  }

  function Resumed(row: Row, i: nat): Task {
    Discarding(Record(i, row.generation, if row.state.Resident? || row.state.Reserved? then Evicting else row.state,
                      row.hash, row.length),
               if row.state.Resident? || row.state.Reserved? then Leaving else Tombed)
  }

  function TaskRecords(w: World, slots: seq<nat>): seq<Record>
    requires Shaped(w) && forall k :: 0 <= k < |slots| ==> slots[k] < |w.rows| && w.tasks[slots[k]].Inserting?
  {
    seq(|slots|, k requires 0 <= k < |slots| => w.tasks[slots[k]].rec)
  }

  ghost function Next(cfg: Config, w: World, e: Event): (out: World)
    requires Shaped(w) && Enabled(cfg, w, e)
    ensures Shaped(out) && |out.rows| == |w.rows|
  {
    match e
    case Reserve(hash, bytes) =>
      var done := ReserveSpec(w.rows, hash, |bytes|);
      var rec := done.result.value.record;
      w.(rows := done.rows, tasks := w.tasks[rec.slot := Inserting(rec, bytes, Claim)])
    case SideWrite(i) =>
      w.(cells := w.cells[i := WriteSide(w.cells[i], NextMeta(w.tasks[i]))], tasks := w.tasks[i := Advance(w.tasks[i])])
    case SideFlush(i) =>
      w.(cells := FlushSides(w.cells), tasks := w.tasks[i := Advance(w.tasks[i])])
    case PayloadWrite(i) =>
      var bytes := if w.tasks[i].Inserting? then w.tasks[i].bytes else Zeros(cfg.pageSize);
      w.(cells := w.cells[i := WritePayload(w.cells[i], bytes)], tasks := w.tasks[i := Advance(w.tasks[i])])
    case PayloadFlush(i) =>
      w.(cells := FlushPayloads(w.cells), tasks := w.tasks[i := Advance(w.tasks[i])])
    case Rehash(i) =>
      w.(tasks := w.tasks[i := Advance(w.tasks[i])])
    case Commit(i) =>
      var rec := w.tasks[i].rec;
      var done := CommitSpec(w.rows, rec);
      (match done.result
       case Ok(Committed(_)) => w.(rows := done.rows, tasks := w.tasks[i := Idle])
       case Ok(Duplicate(_)) =>
           w.(rows := done.rows, tasks := w.tasks[i := Discarding(rec.(state := Evicting), Leaving)])
       case Err => w)
    case CommitAll(slots) =>
      var done := CommitBatchSpec(w.rows, TaskRecords(w, slots));
      if done.result.Ok?
          then World(done.rows, w.cells,
                     seq(|w.tasks|, i requires 0 <= i < |w.tasks| => if i in slots then Idle else w.tasks[i]))
      else w
    case Abandon(i) =>
      var rec := w.tasks[i].rec;
      var done := ReleaseSpec(w.rows, rec);
      w.(rows := done.rows,
         tasks := w.tasks[i := if done.result.Ok? then Discarding(rec.(state := Evicting), Leaving) else Idle])
    case BeginEvict(i) =>
      var done := BeginEvictionSpec(w.rows, RecordOf(w.rows, i));
      if done.result.Ok? then w.(rows := done.rows, tasks := w.tasks[i := Discarding(done.result.value, Leaving)])
          else w
    case Finish(i) =>
      w.(rows := FinishSpec(w.rows, w.tasks[i].rec).rows, tasks := w.tasks[i := Idle])
    case DeallocateFailed(i) =>
      w.(rows := RetrySpec(w.rows, w.tasks[i].rec).rows, tasks := w.tasks[i := Idle])
    case GiveUp(i) =>
      w.(tasks := w.tasks[i := Idle])
    case Skip(i) =>
      w.(tasks := w.tasks[i := Advance(w.tasks[i])])
    case Recover(i) =>
      var rows := match w.rows[i].state
        case Reserved => ReleaseSpec(w.rows, RecordOf(w.rows, i)).rows
        case Resident => BeginEvictionSpec(w.rows, RecordOf(w.rows, i)).rows
        case _ => w.rows;
      w.(rows := rows, tasks := w.tasks[i := Resumed(w.rows[i], i)])
    case Sync =>
      w.(cells := FlushSides(w.cells))
    case Rot(i, seen) =>
      w.(cells := w.cells[i := w.cells[i].(seen := seen, disk := {seen})])
    case Crash(sides, payloads) =>
      World(w.rows,
            seq(|w.rows|, i requires 0 <= i < |w.rows|
                && |sides| == |payloads| == |w.rows| => Cell(sides[i], {sides[i]}, payloads[i], true)),
            seq(|w.rows|, _ => Idle))
  }

  // ----- What every step keeps -----

  predicate TaskOk(cfg: Config, i: nat, row: Row, c: Cell, t: Task) {
    match t
    case Idle => true
    case Inserting(rec, bytes, stage) =>
      && row.state.Reserved? && row.hash.Some? && rec == Record(i, row.generation, Reserved, row.hash, row.length)
      && |bytes| == row.length <= cfg.pageSize
      && (stage in {Flushed, Rehashed, SealWritten, Sealed} ==> c.settled)
      && (stage in {Rehashed, SealWritten, Sealed} ==> Good(cfg, c, row.hash.value, row.length))
    case Discarding(rec, at) =>
      && rec.slot == i && rec.generation == row.generation
      && row.state in {Free, Evicting, RetryDeallocate} && (rec.state.Free? <==> row.state.Free?)
      && rec.state in {Free, Evicting, RetryDeallocate}
  }

  predicate SlotOk(cfg: Config, i: nat, row: Row, c: Cell, t: Task) {
    && RowOk(row) && (row.state.Free? <==> row.length == 0)
    && |c.payload| == cfg.pageSize && c.seen in c.disk
    && (row.state.Resident? ==> t.Idle? && Good(cfg, c, row.hash.value, row.length))
    && TaskOk(cfg, i, row, c, t)
  }

  ghost predicate Inv(cfg: Config, w: World) {
    && Shaped(w) && UniqueResidents(w.rows)
    && forall i :: 0 <= i < |w.rows| ==> SlotOk(cfg, i, w.rows[i], w.cells[i], w.tasks[i])
  }

  /** A step that touches one slot keeps the invariant when that slot's part holds again. */
  lemma OneSlot(cfg: Config, w: World, out: World, i: nat)
    requires Inv(cfg, w) && Shaped(out) && |out.rows| == |w.rows| && i < |w.rows|
    requires forall j :: 0 <= j < |w.rows| && j != i ==>
               out.rows[j] == w.rows[j] && out.cells[j] == w.cells[j] && out.tasks[j] == w.tasks[j]
    requires UniqueResidents(out.rows) && SlotOk(cfg, i, out.rows[i], out.cells[i], out.tasks[i])
    ensures Inv(cfg, out)
  {
  }

  lemma TableStaysOk(w: World)
    requires Shaped(w) && forall i :: 0 <= i < |w.rows| ==> RowOk(w.rows[i])
    ensures TableOk(w.rows)
  {
  }

  lemma ReserveKeepsInv(cfg: Config, w: World, hash: PageHash, bytes: Bytes)
    requires Inv(cfg, w) && Enabled(cfg, w, Reserve(hash, bytes))
    ensures Inv(cfg, Next(cfg, w, Reserve(hash, bytes)))
  {
    TableStaysOk(w);
    CallFollowsEdges(w.rows, CallReserve(hash, |bytes|));
    OneSlot(cfg, w, Next(cfg, w, Reserve(hash, bytes)), FirstFree(w.rows, 0));
  }

  lemma CommitKeepsInv(cfg: Config, w: World, i: nat)
    requires Inv(cfg, w) && Enabled(cfg, w, Commit(i))
    ensures Inv(cfg, Next(cfg, w, Commit(i)))
  {
    TableStaysOk(w);
    CallFollowsEdges(w.rows, CallCommit(w.tasks[i].rec));
    OneSlot(cfg, w, Next(cfg, w, Commit(i)), i);
  }

  lemma AbandonKeepsInv(cfg: Config, w: World, i: nat)
    requires Inv(cfg, w) && Enabled(cfg, w, Abandon(i))
    ensures Inv(cfg, Next(cfg, w, Abandon(i)))
  {
    TableStaysOk(w);
    CallFollowsEdges(w.rows, CallRelease(w.tasks[i].rec));
    OneSlot(cfg, w, Next(cfg, w, Abandon(i)), i);
  }

  lemma BeginEvictKeepsInv(cfg: Config, w: World, i: nat)
    requires Inv(cfg, w) && Enabled(cfg, w, BeginEvict(i))
    ensures Inv(cfg, Next(cfg, w, BeginEvict(i)))
  {
    TableStaysOk(w);
    CallFollowsEdges(w.rows, CallBeginEviction(RecordOf(w.rows, i)));
    OneSlot(cfg, w, Next(cfg, w, BeginEvict(i)), i);
  }

  lemma FinishKeepsInv(cfg: Config, w: World, i: nat)
    requires Inv(cfg, w) && Enabled(cfg, w, Finish(i))
    ensures Inv(cfg, Next(cfg, w, Finish(i)))
  {
    TableStaysOk(w);
    CallFollowsEdges(w.rows, CallFinish(w.tasks[i].rec));
    OneSlot(cfg, w, Next(cfg, w, Finish(i)), i);
  }

  lemma DeallocateFailedKeepsInv(cfg: Config, w: World, i: nat)
    requires Inv(cfg, w) && Enabled(cfg, w, DeallocateFailed(i))
    ensures Inv(cfg, Next(cfg, w, DeallocateFailed(i)))
  {
    TableStaysOk(w);
    CallFollowsEdges(w.rows, CallRetry(w.tasks[i].rec));
    OneSlot(cfg, w, Next(cfg, w, DeallocateFailed(i)), i);
  }

  lemma RecoverKeepsInv(cfg: Config, w: World, i: nat)
    requires Inv(cfg, w) && Enabled(cfg, w, Recover(i))
    ensures Inv(cfg, Next(cfg, w, Recover(i)))
  {
    TableStaysOk(w);
    CallFollowsEdges(w.rows, CallRelease(RecordOf(w.rows, i)));
    CallFollowsEdges(w.rows, CallBeginEviction(RecordOf(w.rows, i)));
    OneSlot(cfg, w, Next(cfg, w, Recover(i)), i);
  }

  lemma CommitAllKeepsInv(cfg: Config, w: World, slots: seq<nat>)
    requires Inv(cfg, w) && Enabled(cfg, w, CommitAll(slots))
    ensures Inv(cfg, Next(cfg, w, CommitAll(slots)))
  {
    var recs := TaskRecords(w, slots);
    var out := Next(cfg, w, CommitAll(slots));
    if CommitBatchSpec(w.rows, recs).result.Ok? {
      PublishAllEffect(w.rows, recs);
      forall i | 0 <= i < |w.rows|
        ensures SlotOk(cfg, i, out.rows[i], out.cells[i], out.tasks[i])
      {
        if i in slots {
          var k :| 0 <= k < |slots| && slots[k] == i;
          assert Published(out.rows, recs[k]);
        } else {
          assert forall k :: 0 <= k < |recs| ==> recs[k].slot == slots[k] != i;
        }
      }
    }
  }

  lemma ArenaStepKeepsInv(cfg: Config, w: World, e: Event)
    requires Inv(cfg, w) && Enabled(cfg, w, e)
    requires e.SideWrite? || e.SideFlush? || e.PayloadWrite? || e.PayloadFlush? || e.Rehash? || e.GiveUp? || e.Skip?
             || e.Sync? || e.Rot? || e.Crash?
    ensures Inv(cfg, Next(cfg, w, e))
  {
    var out := Next(cfg, w, e);
    forall i | 0 <= i < |w.rows|
      ensures SlotOk(cfg, i, out.rows[i], out.cells[i], out.tasks[i])
    {
      assert SlotOk(cfg, i, w.rows[i], w.cells[i], w.tasks[i]);
    }
  }

  lemma StepKeepsInv(cfg: Config, w: World, e: Event)
    requires Inv(cfg, w) && Enabled(cfg, w, e)
    ensures Inv(cfg, Next(cfg, w, e))
  {
    match e
    case CommitAll(slots) => CommitAllKeepsInv(cfg, w, slots);
    case Reserve(hash, bytes) => ReserveKeepsInv(cfg, w, hash, bytes);
    case Commit(i) => CommitKeepsInv(cfg, w, i);
    case Abandon(i) => AbandonKeepsInv(cfg, w, i);
    case BeginEvict(i) => BeginEvictKeepsInv(cfg, w, i);
    case Finish(i) => FinishKeepsInv(cfg, w, i);
    case DeallocateFailed(i) => DeallocateFailedKeepsInv(cfg, w, i);
    case Recover(i) => RecoverKeepsInv(cfg, w, i);
    case _ => ArenaStepKeepsInv(cfg, w, e);
  }

  // ----- Runs -----

  ghost predicate Legal(cfg: Config, w: World, es: seq<Event>)
    requires Shaped(w)
    decreases |es|
  {
    |es| == 0 || (Enabled(cfg, w, es[0]) && Legal(cfg, Next(cfg, w, es[0]), es[1..]))
  }

  ghost function Exec(cfg: Config, w: World, es: seq<Event>): (out: World)
    requires Shaped(w) && Legal(cfg, w, es)
    ensures Shaped(out) && |out.rows| == |w.rows|
    decreases |es|
  {
    if |es| == 0 then w else Exec(cfg, Next(cfg, w, es[0]), es[1..])
  }

  /** The invariant holds at every point of every run, crashes and lost records included. */
  lemma {:induction false} RunKeepsInv(cfg: Config, w: World, es: seq<Event>)
    requires Inv(cfg, w) && Legal(cfg, w, es)
    ensures Inv(cfg, Exec(cfg, w, es))
    decreases |es|
  {
    if |es| != 0 {
      StepKeepsInv(cfg, w, es[0]);
      RunKeepsInv(cfg, Next(cfg, w, es[0]), es[1..]);
    }
  }

  lemma {:induction false} ExecConcat(cfg: Config, w: World, es: seq<Event>, fs: seq<Event>)
    requires Shaped(w) && Legal(cfg, w, es) && Legal(cfg, Exec(cfg, w, es), fs)
    ensures Legal(cfg, w, es + fs) && Exec(cfg, w, es + fs) == Exec(cfg, Exec(cfg, w, es), fs)
    decreases |es|
  {
    if |es| == 0 {
      assert es + fs == fs;
    } else {
      ExecConcat(cfg, Next(cfg, w, es[0]), es[1..], fs);
      assert (es + fs)[1..] == es[1..] + fs;
    }
  }

  lemma InitialIsOk(cfg: Config, slots: nat)
    ensures Inv(cfg, Initial(cfg, slots)) && InOrder(cfg, Initial(cfg, slots))
  {
  }

  // ----- The sidecar as evidence -----

  predicate NoSeal(c: Cell) {
    forall s :: s in c.disk ==> !(s.Known? && s.meta.state.Resident?)
  }

  /** Every resident record a crash could leave behind describes the payload that is there. */
  predicate Honest(cfg: Config, c: Cell) {
    forall s :: s in c.disk && s.Known? && s.meta.state.Resident? ==> Good(cfg, c, s.meta.hash, s.meta.length)
  }

  predicate OnlyOnDisk(c: Cell, m: Meta) {
    c.disk == {Known(m)} && c.seen == Known(m)
  }

  predicate SlotInOrder(cfg: Config, row: Row, c: Cell, t: Task) {
    && Honest(cfg, c)
    && (t.Idle? && row.state.Free? ==> OnlyOnDisk(c, FreeMeta(row.generation)))
    && (row.state.Resident? ==> OnlyOnDisk(c, MetaFor(row.generation, Resident, row.hash, row.length)))
    && (t.Inserting? ==>
          && (t.stage in {Claim, MarkWritten, Marked, Written, Flushed, Rehashed} ==> NoSeal(c))
          && (t.stage in {SealWritten, Sealed} ==>
              c.seen == Known(MetaFor(row.generation, Resident, row.hash, row.length)))
          && (t.stage.Sealed? ==> c.disk == {c.seen}))
    && (t.Discarding? ==>
          && !row.state.Free?
          && (t.at.TombWritten? ==> c.seen == Known(MetaFor(t.rec.generation, Evicting, t.rec.hash, t.rec.length)))
          && (t.at in {Tombed, Zeroing, Zeroed, FreeWritten, FreeFlushed} ==> NoSeal(c))
          && (t.at in {FreeWritten, FreeFlushed} ==> c.seen == Known(FreeMeta(row.generation)))
          && (t.at.FreeFlushed? ==> c.disk == {c.seen}))
  }

  ghost predicate InOrder(cfg: Config, w: World) {
    && Shaped(w)
    && forall i :: 0 <= i < |w.rows| ==> SlotInOrder(cfg, w.rows[i], w.cells[i], w.tasks[i])
  }

  /** Inserts and evictions as the code orders them: no ignored error, no repair, no damage. */
  predicate Orderly(e: Event) {
    !e.Skip? && !e.Recover? && !e.Rot?
  }

  lemma CommitAllInOrder(cfg: Config, w: World, slots: seq<nat>)
    requires Inv(cfg, w) && InOrder(cfg, w) && Enabled(cfg, w, CommitAll(slots))
    ensures InOrder(cfg, Next(cfg, w, CommitAll(slots)))
  {
    var recs := TaskRecords(w, slots);
    var out := Next(cfg, w, CommitAll(slots));
    if CommitBatchSpec(w.rows, recs).result.Ok? {
      PublishAllEffect(w.rows, recs);
      forall i | 0 <= i < |w.rows|
        ensures SlotInOrder(cfg, out.rows[i], out.cells[i], out.tasks[i])
      {
        if i in slots {
          var k :| 0 <= k < |slots| && slots[k] == i;
          assert Published(out.rows, recs[k]);
        } else {
          assert forall k :: 0 <= k < |recs| ==> recs[k].slot == slots[k] != i;
        }
      }
    }
  }

  /** Steps on the arena and its sidecar. */
  predicate OnArena(e: Event) {
    e.SideWrite? || e.SideFlush? || e.PayloadWrite? || e.PayloadFlush? || e.Rehash? || e.Sync? || e.Crash?
  }

  lemma ArenaSlotInOrder(cfg: Config, w: World, e: Event, i: nat)
    requires Inv(cfg, w) && InOrder(cfg, w) && Enabled(cfg, w, e) && OnArena(e) && i < |w.rows|
    ensures var out := Next(cfg, w, e);
            SlotInOrder(cfg, out.rows[i], out.cells[i], out.tasks[i])
  {
    assert SlotOk(cfg, i, w.rows[i], w.cells[i], w.tasks[i]);
    assert SlotInOrder(cfg, w.rows[i], w.cells[i], w.tasks[i]);
  }

  lemma RowSlotInOrder(cfg: Config, w: World, e: Event, i: nat)
    requires Inv(cfg, w) && InOrder(cfg, w) && Enabled(cfg, w, e) && Orderly(e) && !OnArena(e) && !e.CommitAll?
             && i < |w.rows|
    ensures var out := Next(cfg, w, e);
            SlotInOrder(cfg, out.rows[i], out.cells[i], out.tasks[i])
  {
    assert SlotOk(cfg, i, w.rows[i], w.cells[i], w.tasks[i]);
    assert SlotInOrder(cfg, w.rows[i], w.cells[i], w.tasks[i]);
  }

  lemma OrderlyStep(cfg: Config, w: World, e: Event)
    requires Inv(cfg, w) && InOrder(cfg, w) && Enabled(cfg, w, e) && Orderly(e)
    ensures InOrder(cfg, Next(cfg, w, e))
  {
    if e.CommitAll? {
      CommitAllInOrder(cfg, w, e.slots);
    } else {
      var out := Next(cfg, w, e);
      forall i | 0 <= i < |w.rows|
        ensures SlotInOrder(cfg, out.rows[i], out.cells[i], out.tasks[i])
      {
        if OnArena(e) { ArenaSlotInOrder(cfg, w, e, i); } else { RowSlotInOrder(cfg, w, e, i); }
      }
    }
  }

  predicate AllOrderly(es: seq<Event>) {
    forall k :: 0 <= k < |es| ==> Orderly(es[k])
  }

  lemma {:induction false} OrderlyRun(cfg: Config, w: World, es: seq<Event>)
    requires Inv(cfg, w) && InOrder(cfg, w) && Legal(cfg, w, es) && AllOrderly(es)
    ensures Inv(cfg, Exec(cfg, w, es)) && InOrder(cfg, Exec(cfg, w, es))
    decreases |es|
  {
    if |es| != 0 {
      StepKeepsInv(cfg, w, es[0]);
      OrderlyStep(cfg, w, es[0]);
      OrderlyRun(cfg, Next(cfg, w, es[0]), es[1..]);
    }
  }

  // ----- Reconcile -----

  predicate Clean(cfg: Config, row: Row, c: Cell) {
    || (row == Row(row.generation, Free, None, 0) && OnlyOnDisk(c, FreeMeta(row.generation)))
    || (row.state.Resident? && row.hash.Some? && OnlyOnDisk(c, MetaFor(row.generation, Resident, row.hash, row.length))
        && Good(cfg, c, row.hash.value, row.length))
  }

  ghost predicate AllClean(cfg: Config, w: World) {
    Shaped(w) && forall i :: 0 <= i < |w.rows| ==> Clean(cfg, w.rows[i], w.cells[i]) && w.tasks[i].Idle?
  }

  /** All that reconcile needs of a slot: a resident row that its sidecar confirms is really there. */
  predicate Repairable(cfg: Config, row: Row, c: Cell) {
    && RowOk(row) && (row.state.Free? <==> row.length == 0) && |c.payload| == cfg.pageSize
    && (row.state.Resident? && MetadataMatches(row, c.seen) ==> Good(cfg, c, row.hash.value, row.length))
  }

  /** One slot before and after reconcile. */
  predicate SlotReconciled(cfg: Config, row: Row, c: Cell, row': Row, c': Cell) {
    if ActionFor(row, c.seen).None? then
      row' == row && c'.seen == c.seen && c'.disk == {c.seen} && c'.payload == c.payload && (c.settled ==> c'.settled)
    else
      row' == Row(row.generation, Free, None, 0)
      && c' == Cell(Known(FreeMeta(row.generation)), {Known(FreeMeta(row.generation))}, Zeros(cfg.pageSize), true)
  }

  ghost predicate Reconciled(cfg: Config, w: World, out: World) {
    && Shaped(w) && Shaped(out) && |out.rows| == |w.rows|
    && forall i :: 0 <= i < |w.rows| ==>
        SlotReconciled(cfg, w.rows[i], w.cells[i], out.rows[i], out.cells[i]) && out.tasks[i].Idle?
  }

  /** The repairs reconcile reports for the first `n` slots, in slot order. */
  function Actions(rows: seq<Row>, cells: seq<Cell>, n: nat): seq<(nat, Action)>
    requires n <= |rows| == |cells|
  {
    if n == 0 then []
    else
      Actions(rows, cells, n - 1) +
      (match ActionFor(rows[n - 1], cells[n - 1].seen)
       case None => []
       case Some(action) => [(n - 1, action)])
  }

  /** Resident slots among the first `n` that need no repair. */
  function Healthy(rows: seq<Row>, cells: seq<Cell>, n: nat): nat
    requires n <= |rows| == |cells|
  {
    if n == 0 then 0
    else Healthy(rows, cells, n - 1) + if rows[n - 1].state.Resident?
        && MetadataMatches(rows[n - 1], cells[n - 1].seen) then 1 else 0
  }

  lemma {:induction false} NoActions(rows: seq<Row>, cells: seq<Cell>, n: nat)
    requires n <= |rows| == |cells|
    ensures Actions(rows, cells, n) == [] <==> forall i :: 0 <= i < n ==> ActionFor(rows[i], cells[i].seen).None?
  {
    if n != 0 { NoActions(rows, cells, n - 1); }
  }

  predicate SameContent(c: Cell, d: Cell) {
    c.seen == d.seen && c.disk == d.disk && c.payload == d.payload
  }

  predicate SameContents(cells: seq<Cell>, others: seq<Cell>) {
    |cells| == |others| && forall i :: 0 <= i < |cells| ==> SameContent(cells[i], others[i])
  }

  /** Reconcile leaves every slot clean, and a second pass finds nothing to do and changes nothing. */
  lemma ReconcileCleans(cfg: Config, w: World, out: World)
    requires Reconciled(cfg, w, out)
    requires forall i :: 0 <= i < |w.rows| ==> Repairable(cfg, w.rows[i], w.cells[i])
    ensures AllClean(cfg, out)
    ensures Actions(out.rows, out.cells, |out.rows|) == []
    ensures forall again :: Reconciled(cfg, out, again) ==>
              again.rows == out.rows && again.tasks == out.tasks && SameContents(again.cells, out.cells)
  {
    forall i | 0 <= i < |w.rows|
      ensures Clean(cfg, out.rows[i], out.cells[i]) && ActionFor(out.rows[i], out.cells[i].seen).None?
    {
      assert SlotReconciled(cfg, w.rows[i], w.cells[i], out.rows[i], out.cells[i]);
    }
    NoActions(out.rows, out.cells, |out.rows|);
    forall again | Reconciled(cfg, out, again)
      ensures again.rows == out.rows && again.tasks == out.tasks && SameContents(again.cells, out.cells)
    {
      forall i | 0 <= i < |out.rows|
        ensures again.rows[i] == out.rows[i] && again.tasks[i] == out.tasks[i]
                && SameContent(again.cells[i], out.cells[i])
      {
        assert SlotReconciled(cfg, out.rows[i], out.cells[i], again.rows[i], again.cells[i]);
      }
    }
  }

  lemma SoundIsRepairable(cfg: Config, w: World)
    requires Inv(cfg, w)
    ensures forall i :: 0 <= i < |w.rows| ==> Repairable(cfg, w.rows[i], w.cells[i])
  {
    forall i | 0 <= i < |w.rows|
      ensures Repairable(cfg, w.rows[i], w.cells[i])
    {
      assert SlotOk(cfg, i, w.rows[i], w.cells[i], w.tasks[i]);
    }
  }

  /**
   Crash safety: stop any mix of inserts, evictions, error paths and half-done repairs
   after any step; once the survivors of the crash are reconciled, every slot is free in
   table and sidecar, or resident with its sidecar and its payload in agreement.
   */
  lemma CrashThenReconcile(cfg: Config, w: World, es: seq<Event>, sides: seq<Sidecar>, payloads: seq<Bytes>, out: World)
    requires Inv(cfg, w) && Legal(cfg, w, es)
    requires Enabled(cfg, Exec(cfg, w, es), Crash(sides, payloads))
    requires Reconciled(cfg, Next(cfg, Exec(cfg, w, es), Crash(sides, payloads)), out)
    ensures AllClean(cfg, out) && UniqueResidents(out.rows) && Actions(out.rows, out.cells, |out.rows|) == []
  {
    RunKeepsInv(cfg, w, es);
    var before := Exec(cfg, w, es);
    StepKeepsInv(cfg, before, Crash(sides, payloads));
    var after := Next(cfg, before, Crash(sides, payloads));
    SoundIsRepairable(cfg, after);
    ReconcileCleans(cfg, after, out);
    forall i | 0 <= i < |out.rows|
      ensures out.rows[i].state.Resident? ==> out.rows[i] == after.rows[i]
    {
      assert SlotReconciled(cfg, after.rows[i], after.cells[i], out.rows[i], out.cells[i]);
    }
  }

  /** Reconcile hands the system back in working order. */
  lemma CleanIsInOrder(cfg: Config, w: World)
    requires AllClean(cfg, w) && UniqueResidents(w.rows)
    requires forall i :: 0 <= i < |w.rows| ==>
               |w.cells[i].payload| == cfg.pageSize && (w.rows[i].state.Resident? ==> w.rows[i].length > 0)
    ensures Inv(cfg, w) && InOrder(cfg, w)
  {
    forall i | 0 <= i < |w.rows|
      ensures SlotOk(cfg, i, w.rows[i], w.cells[i], w.tasks[i]) && SlotInOrder(cfg, w.rows[i], w.cells[i], w.tasks[i])
    {
      assert Clean(cfg, w.rows[i], w.cells[i]);
    }
  }

  /** Durability: in an orderly run a committed page survives any crash, and reconcile keeps it. */
  lemma CommittedPageSurvives(cfg: Config, w: World, es: seq<Event>, sides: seq<Sidecar>, payloads: seq<Bytes>,
                              out: World, i: nat)
    requires Inv(cfg, w) && InOrder(cfg, w) && Legal(cfg, w, es) && AllOrderly(es)
    requires i < |w.rows| && Exec(cfg, w, es).rows[i].state.Resident?
    requires Enabled(cfg, Exec(cfg, w, es), Crash(sides, payloads))
    requires Reconciled(cfg, Next(cfg, Exec(cfg, w, es), Crash(sides, payloads)), out)
    ensures out.rows[i] == Exec(cfg, w, es).rows[i] && out.cells[i].payload == Exec(cfg, w, es).cells[i].payload
  {
    OrderlyRun(cfg, w, es);
    var before := Exec(cfg, w, es);
    var after := Next(cfg, before, Crash(sides, payloads));
    assert SlotOk(cfg, i, before.rows[i], before.cells[i], before.tasks[i]);
    assert SlotInOrder(cfg, before.rows[i], before.cells[i], before.tasks[i]);
    assert Survives(cfg, before.cells[i], sides[i], payloads[i]);
    assert SlotReconciled(cfg, after.rows[i], after.cells[i], out.rows[i], out.cells[i]);
  }

  /**
   The sidecar is sufficient evidence: after an orderly run, even when the crash also rolls
   the table back to any earlier contents `rows`, a resident row that its sidecar confirms
   has its bytes, and reconcile again leaves every slot clean.
   */
  lemma RolledBackTableIsSafe(cfg: Config, w: World, es: seq<Event>, rows: seq<Row>, sides: seq<Sidecar>,
                              payloads: seq<Bytes>, out: World)
    requires Inv(cfg, w) && InOrder(cfg, w) && Legal(cfg, w, es) && AllOrderly(es)
    requires Enabled(cfg, Exec(cfg, w, es), Crash(sides, payloads))
    requires |rows| == |w.rows| && TableOk(rows) && forall i :: 0 <= i < |rows| ==>
               (rows[i].state.Free? <==> rows[i].length == 0)
    requires Reconciled(cfg, Next(cfg, Exec(cfg, w, es), Crash(sides, payloads)).(rows := rows), out)
    ensures forall i :: 0 <= i < |rows| && rows[i].state.Resident? && MetadataMatches(rows[i], sides[i])
                        ==> Holds(cfg, Cell(sides[i], {sides[i]}, payloads[i], true), rows[i].hash.value,
                                  rows[i].length)
    ensures AllClean(cfg, out) && Actions(out.rows, out.cells, |out.rows|) == []
  {
    OrderlyRun(cfg, w, es);
    var before := Exec(cfg, w, es);
    var after := Next(cfg, before, Crash(sides, payloads)).(rows := rows);
    forall i | 0 <= i < |rows|
      ensures Repairable(cfg, rows[i], after.cells[i])
    {
      assert SlotInOrder(cfg, before.rows[i], before.cells[i], before.tasks[i]);
      assert Survives(cfg, before.cells[i], sides[i], payloads[i]);
    }
    ReconcileCleans(cfg, after, out);
  }

  /** The owner of a slot is never told that its record is out of date. */
  lemma OwnerNeverConflicts(cfg: Config, w: World, es: seq<Event>, i: nat)
    requires Inv(cfg, w) && Legal(cfg, w, es) && i < |w.rows|
    ensures var now := Exec(cfg, w, es);
            && (now.tasks[i].Inserting? ==>
                CommitSpec(now.rows, now.tasks[i].rec).result.Ok? && ReleaseSpec(now.rows, now.tasks[i].rec).result.Ok?)
            && (now.tasks[i].Discarding? && !now.rows[i].state.Free? ==>
                FinishSpec(now.rows, now.tasks[i].rec).result.Ok?)
            && (now.rows[i].state.Resident? ==> BeginEvictionSpec(now.rows, RecordOf(now.rows, i)).result.Ok?)
  {
    RunKeepsInv(cfg, w, es);
    var now := Exec(cfg, w, es);
    assert SlotOk(cfg, i, now.rows[i], now.cells[i], now.tasks[i]);
  }
}
