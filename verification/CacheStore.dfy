/**
 The cache as the code drives it: insert_page, the reservation's drop handler, evict_inner
 and reconcile (batches are in CacheBatch), statement by statement over the table and the arena. Every method keeps
 the store's history a run of the slot protocol, so all that holds of runs holds of them,
 at every intermediate point.
 */
module CacheStore {
  import opened Basics
  import opened CacheTable
  import opened SlotProtocol

  /** How an arena call goes: well, or with an error before or after the write took place. */
  datatype Fault = Fine | Lost | Kept

  /**
   The arena file and its sidecar, slot by slot (crates/mirage-cache/src/shard.rs). Any call
   may fail. A failed write may have happened or not; a flush that failed promises nothing.
   */
  class Arena {
    const pageSize: nat
    var cells: seq<Cell>
    ghost var failures: nat

    constructor (slots: nat, pageSize: nat)
      ensures this.pageSize == pageSize && |cells| == slots
      ensures forall i :: 0 <= i < slots ==>
                cells[i] == Cell(Known(FreeMeta(0)), {Known(FreeMeta(0))}, Zeros(pageSize), true)
    {
      this.pageSize := pageSize;
      cells := seq(slots, _ => Cell(Known(FreeMeta(0)), {Known(FreeMeta(0))}, Zeros(pageSize), true));
      failures := 0;
    }

    method WriteMetadata(i: nat, m: Meta) returns (ok: bool, ghost kept: bool)
      requires i < |cells|
      modifies this
      ensures failures == old(failures) + if ok then 0 else 1
      ensures (ok ==> kept) && cells == if kept then old(cells)[i := WriteSide(old(cells)[i], m)] else old(cells)
    {
      var fault: Fault := *;
      ok, kept := fault.Fine?, !fault.Lost?;
      if !fault.Lost? { cells := cells[i := WriteSide(cells[i], m)]; }
      failures := failures + if ok then 0 else 1;
    }

    method FlushMetadata() returns (ok: bool)
      modifies this
      ensures failures == old(failures) + if ok then 0 else 1
      ensures cells == if ok then FlushSides(old(cells)) else old(cells)
    {
      var fault: Fault := *;
      ok := fault.Fine?;
      if ok { cells := FlushSides(cells); }
      failures := failures + if ok then 0 else 1;
    }

    method WriteSlot(i: nat, bytes: Bytes) returns (ok: bool, ghost kept: bool)
      requires i < |cells| && |bytes| <= pageSize
      modifies this
      ensures failures == old(failures) + if ok then 0 else 1
      ensures (ok ==> kept) && cells == if kept then old(cells)[i := WritePayload(old(cells)[i], bytes)] else old(cells)
    {
      var fault: Fault := *;
      ok, kept := fault.Fine?, !fault.Lost?;
      if !fault.Lost? { cells := cells[i := WritePayload(cells[i], bytes)]; }
      failures := failures + if ok then 0 else 1;
    }

    method Flush() returns (ok: bool)
      modifies this
      ensures failures == old(failures) + if ok then 0 else 1
      ensures cells == if ok then FlushPayloads(old(cells)) else old(cells)
    {
      var fault: Fault := *;
      ok := fault.Fine?;
      if ok { cells := FlushPayloads(cells); }
      failures := failures + if ok then 0 else 1;
    }

    method ReadSlot(i: nat, length: nat) returns (ok: bool, bytes: Bytes)
      requires i < |cells| && length <= |cells[i].payload|
      modifies `failures
      ensures failures == old(failures) + if ok then 0 else 1
      ensures ok ==> bytes == cells[i].payload[..length]
    {
      var fault: Fault := *;
      ok, bytes := fault.Fine?, if fault.Fine? then cells[i].payload[..length] else [];
      failures := failures + if ok then 0 else 1;
    }
  }

  datatype InsertStep = StepReserved | StepWritten | StepFlushed | StepRehashed | StepMetadataCommitted

  datatype InsertOutcome = Inserted(record: Record) | Existing(record: Record)

  /** How clearing a slot away ends: done, left for another try, or broken off by an error. */
  datatype Clearing = Cleared | Deferred | Broken

  datatype Report = Report(inspected: nat, healthy: nat, actions: seq<(nat, Action)>, repaired: nat)

  lemma Snoc(cfg: Config, w: World, es: seq<Event>, e: Event)
    requires Shaped(w) && Legal(cfg, w, es) && Enabled(cfg, Exec(cfg, w, es), e)
    ensures Legal(cfg, w, es + [e]) && Exec(cfg, w, es + [e]) == Next(cfg, Exec(cfg, w, es), e)
  {
    var last := Exec(cfg, w, es);
    var one, none := [e], [e][1..];
    assert one[0] == e && |none| == 0;
    assert Legal(cfg, Next(cfg, last, e), none) && Exec(cfg, Next(cfg, last, e), none) == Next(cfg, last, e);
    assert Legal(cfg, last, one) && Exec(cfg, last, one) == Exec(cfg, Next(cfg, last, one[0]), one[1..]);
    ExecConcat(cfg, w, es, [e]);
  }

  class Store {
    const cfg: Config
    const db: SlotTable
    const arena: Arena
    ghost var tasks: seq<Task>
    ghost var origin: World
    ghost var log: seq<Event>

    ghost function Now(): World
      reads this, db, arena
    {
      World(db.rows, arena.cells, tasks)
    }

    /** The present state was reached from a sound one by a legal run. */
    ghost predicate Valid()
      reads this, db, arena
    {
      && arena.pageSize == cfg.pageSize
      && Inv(cfg, origin) && Legal(cfg, origin, log) && Now() == Exec(cfg, origin, log)
    }

    constructor (cfg: Config, slots: nat)
      ensures Valid() && log == [] && Now() == Initial(cfg, slots)
    {
      this.cfg := cfg;
      db := new SlotTable(slots);
      arena := new Arena(slots, cfg.pageSize);
      tasks := seq(slots, _ => Idle);
      origin := Initial(cfg, slots);
      log := [];
      new;
      InitialIsOk(cfg, slots);
      assert db.rows == origin.rows && arena.cells == origin.cells;
    }

    lemma NowIsSound()
      requires Valid()
      ensures Inv(cfg, Now())
    {
      RunKeepsInv(cfg, origin, log);
    }

    lemma SlotIsSound(i: nat)
      requires Valid() && i < |db.rows|
      ensures SlotOk(cfg, i, db.rows[i], arena.cells[i], tasks[i])
    {
      RunKeepsInv(cfg, origin, log);
    }

    /** Books the step just taken. */
    ghost method Did(e: Event, before: World)
      requires arena.pageSize == cfg.pageSize
      requires Inv(cfg, origin) && Legal(cfg, origin, log) && before == Exec(cfg, origin, log)
      requires Enabled(cfg, before, e)
               && World(db.rows, arena.cells, Next(cfg, before, e).tasks) == Next(cfg, before, e)
      modifies this
      ensures Valid() && origin == old(origin) && log == old(log) + [e] && Now() == Next(cfg, before, e)
    {
      Snoc(cfg, origin, log, e);
      tasks := Next(cfg, before, e).tasks;
      log := log + [e];
    }

    /** Errors so far; a method that reports success met none. */
    ghost function Failures(): nat
      reads this, arena
    {
      arena.failures
    }

    /** An error stops the clearing of a slot. */
    ghost method Stop(i: nat)
      requires Valid() && i < |db.rows| && tasks[i].Discarding?
      modifies this
      ensures Valid() && origin == old(origin) && old(log) <= log && tasks == old(tasks)[i := Idle]
    {
      Did(GiveUp(i), Now());
    }

    /** An error is ignored and the clearing of a slot goes on. */
    ghost method Pass(i: nat)
      requires Valid() && i < |db.rows| && tasks[i].Discarding? && (AtSideWrite(tasks[i]) || AtSideFlush(tasks[i]))
      modifies this
      ensures Valid() && origin == old(origin) && old(log) <= log && tasks == old(tasks)[i := Advance(old(tasks)[i])]
    {
      Did(Skip(i), Now());
    }

    method WriteSideOf(i: nat, m: Meta) returns (ok: bool, ghost kept: bool)
      requires Valid() && i < |db.rows| && AtSideWrite(tasks[i]) && m == NextMeta(tasks[i])
      modifies this, arena
      ensures Valid() && origin == old(origin) && old(log) <= log
      ensures Failures() == old(Failures()) + (if ok then 0 else 1) && (ok ==> kept)
      ensures tasks == if kept then old(tasks)[i := Advance(old(tasks)[i])] else old(tasks)
      ensures arena.cells == if kept then old(arena.cells)[i := WriteSide(old(arena.cells)[i], m)] else old(arena.cells)
    {
      ghost var w := Now();
      ok, kept := arena.WriteMetadata(i, m);
      if kept { Did(SideWrite(i), w); }
    }

    method FlushSideOf(i: nat) returns (ok: bool)
      requires Valid() && i < |db.rows| && AtSideFlush(tasks[i])
      modifies this, arena
      ensures Valid() && origin == old(origin) && old(log) <= log
      ensures Failures() == old(Failures()) + if ok then 0 else 1
      ensures tasks == if ok then old(tasks)[i := Advance(old(tasks)[i])] else old(tasks)
      ensures arena.cells == if ok then FlushSides(old(arena.cells)) else old(arena.cells)
    {
      ghost var w := Now();
      ok := arena.FlushMetadata();
      if ok { Did(SideFlush(i), w); }
    }

    method WritePayloadOf(i: nat, bytes: Bytes) returns (ok: bool, ghost kept: bool)
      requires Valid() && i < |db.rows| && AtPayloadWrite(tasks[i]) && |bytes| <= cfg.pageSize
      requires bytes == if tasks[i].Inserting? then tasks[i].bytes else Zeros(cfg.pageSize)
      modifies this, arena
      ensures Valid() && origin == old(origin) && old(log) <= log
      ensures Failures() == old(Failures()) + (if ok then 0 else 1) && (ok ==> kept)
      ensures tasks == if kept then old(tasks)[i := Advance(old(tasks)[i])] else old(tasks)
      ensures arena.cells == if kept then old(arena.cells)[i := WritePayload(old(arena.cells)[i], bytes)]
              else old(arena.cells)
    {
      ghost var w := Now();
      ok, kept := arena.WriteSlot(i, bytes);
      if kept { Did(PayloadWrite(i), w); }
    }

    method FlushPayloadOf(i: nat) returns (ok: bool)
      requires Valid() && i < |db.rows| && AtPayloadFlush(tasks[i])
      modifies this, arena
      ensures Valid() && origin == old(origin) && old(log) <= log
      ensures Failures() == old(Failures()) + if ok then 0 else 1
      ensures tasks == if ok then old(tasks)[i := Advance(old(tasks)[i])] else old(tasks)
      ensures arena.cells == if ok then FlushPayloads(old(arena.cells)) else old(arena.cells)
    {
      ghost var w := Now();
      ok := arena.Flush();
      if ok { Did(PayloadFlush(i), w); }
    }

    // ----- Inserting -----

    /** The insertion has moved on, or not, and nothing else has. */
    ghost predicate Holding(base: seq<Task>, rec: Record, bytes: Bytes, stage: InsertStage)
      reads this
    {
      rec.slot < |base| && tasks == base[rec.slot := Inserting(rec, bytes, stage)]
    }

    /** Marks the slot reserved in the sidecar, or seals it as resident. */
    method MarkSlot(rec: Record, bytes: Bytes, ghost from: InsertStage, state: SlotState)
      returns (ok: bool, ghost stage: InsertStage)
      requires Valid() && rec.slot < |db.rows| && tasks[rec.slot] == Inserting(rec, bytes, from)
      requires (from == Claim && state == Reserved) || (from == Rehashed && state == Resident)
      modifies this, arena
      ensures Valid() && origin == old(origin) && old(log) <= log && Holding(old(tasks), rec, bytes, stage)
      ensures ok ==> stage == if from == Claim then Marked else Sealed
      ensures Failures() >= old(Failures()) && (ok <==> Failures() == old(Failures()))
      ensures |arena.cells| == |old(arena.cells)| && arena.cells[rec.slot].payload == old(arena.cells)[rec.slot].payload
    {
      var i := rec.slot;
      ghost var kept;
      ok, kept := WriteSideOf(i, MetaFor(rec.generation, state, rec.hash, rec.length));
      stage := if !kept then from else if from == Claim then MarkWritten else SealWritten;
      assert Holding(old(tasks), rec, bytes, stage);
      if ok {
        ok := FlushSideOf(i);
        if ok { stage := if from == Claim then Marked else Sealed; }
        assert Holding(old(tasks), rec, bytes, stage);
      }
    }

    /** Writes the payload and flushes it. */
    method StorePage(rec: Record, bytes: Bytes, fails: InsertStep -> bool) returns (ok: bool, ghost stage: InsertStage)
      requires Valid() && rec.slot < |db.rows| && tasks[rec.slot] == Inserting(rec, bytes, Marked)
               && |bytes| <= cfg.pageSize
      modifies this, arena
      ensures Valid() && origin == old(origin) && old(log) <= log && Holding(old(tasks), rec, bytes, stage)
      ensures ok ==> stage == Flushed && |arena.cells| == |old(arena.cells)| && bytes <= arena.cells[rec.slot].payload
      ensures Failures() >= old(Failures())
      ensures ok <==> Failures() == old(Failures()) && !fails(StepWritten) && !fails(StepFlushed)
    {
      var i := rec.slot;
      ghost var kept;
      ok, kept := WritePayloadOf(i, bytes);
      stage := if kept then Written else Marked;
      assert Holding(old(tasks), rec, bytes, stage);
      if !ok || fails(StepWritten) { return false, stage; }
      assert arena.cells[i].payload[..|bytes|] == bytes;
      ok := FlushPayloadOf(i);
      stage := if ok then Flushed else Written;
      assert Holding(old(tasks), rec, bytes, stage);
      ok := ok && !fails(StepFlushed);
    }

    /** The first half of insert_page: marks the slot reserved, writes the payload and flushes it. */
    method WritePage(rec: Record, bytes: Bytes, fails: InsertStep -> bool) returns (ok: bool, ghost stage: InsertStage)
      requires Valid() && rec.slot < |db.rows| && tasks[rec.slot] == Inserting(rec, bytes, Claim)
      modifies this, arena
      ensures Valid() && origin == old(origin) && old(log) <= log && Holding(old(tasks), rec, bytes, stage)
      ensures ok ==> stage == Flushed && |arena.cells| == |old(arena.cells)| && bytes <= arena.cells[rec.slot].payload
      ensures Failures() >= old(Failures())
      ensures ok
              <==> Failures() == old(Failures()) && !fails(StepReserved) && !fails(StepWritten) && !fails(StepFlushed)
    {
      SlotIsSound(rec.slot);
      ok, stage := MarkSlot(rec, bytes, Claim, Reserved);
      if !ok || fails(StepReserved) { return false, stage; }
      ok, stage := StorePage(rec, bytes, fails);
    }

    /** The second half: reads the payload back, checks its hash and seals the slot as resident. */
    method SealPage(rec: Record, bytes: Bytes, fails: InsertStep -> bool) returns (ok: bool, ghost stage: InsertStage)
      requires Valid() && rec.slot < |db.rows| && tasks[rec.slot] == Inserting(rec, bytes, Flushed) && rec.hash.Some?
      modifies this, arena
      ensures Valid() && origin == old(origin) && old(log) <= log && Holding(old(tasks), rec, bytes, stage)
      ensures ok ==> stage == Sealed
      ensures |arena.cells| == |old(arena.cells)| && arena.cells[rec.slot].payload == old(arena.cells)[rec.slot].payload
      ensures Failures() >= old(Failures())
      ensures ok <==> && Failures() == old(Failures()) && !fails(StepRehashed)
                      && Holds(cfg, old(arena.cells)[rec.slot], rec.hash.value, rec.length)
    {
      var i := rec.slot;
      SlotIsSound(i);
      var verified;
      stage := Flushed;
      assert Holding(old(tasks), rec, bytes, stage);
      ok, verified := arena.ReadSlot(i, rec.length);
      if !ok || cfg.digest(verified) != rec.hash.value { return false, stage; }
      Did(Rehash(i), Now());
      stage := Rehashed;
      assert Holding(old(tasks), rec, bytes, stage);
      if fails(StepRehashed) { return false, stage; }
      ok, stage := MarkSlot(rec, bytes, Rehashed, Resident);
    }

    // ----- Clearing a slot away -----

    /** deallocate_slot: zeroes the payload and flushes it. */
    method DeallocateSlot(rec: Record) returns (ok: bool, ghost at: DiscardStage)
      requires Valid() && rec.slot < |db.rows| && tasks[rec.slot] == Discarding(rec, Tombed)
      modifies this, arena
      ensures Valid() && origin == old(origin) && old(log) <= log && |arena.cells| == |old(arena.cells)|
      ensures Failures() >= old(Failures()) && (ok <==> Failures() == old(Failures()))
      ensures tasks == old(tasks)[rec.slot := Discarding(rec, at)]
              && if ok then at == Zeroed else at == Tombed || at == Zeroing
      ensures ok ==>
                arena.cells[rec.slot] == old(arena.cells)[rec.slot].(payload := Zeros(cfg.pageSize), settled := true)
      ensures forall j :: 0 <= j < |arena.cells| && j != rec.slot ==> Untouched(old(arena.cells)[j], arena.cells[j])
    {
      var i := rec.slot;
      SlotIsSound(i);
      ghost var kept;
      ok, kept := WritePayloadOf(i, Zeros(cfg.pageSize));
      at := if kept then Zeroing else Tombed;
      assert tasks == old(tasks)[i := Discarding(rec, at)];
      if !ok { return; }
      assert arena.cells[i].payload == Zeros(cfg.pageSize);
      ok := FlushPayloadOf(i);
      if ok { at := Zeroed; }
    }

    /** A sidecar record is written and flushed; on an error the clearing stops here. */
    method Inscribe(rec: Record, ghost from: DiscardStage, m: Meta) returns (ok: bool)
      requires Valid() && rec.slot < |db.rows| && tasks[rec.slot] == Discarding(rec, from)
      requires (from == Leaving || from == Zeroed) && m == NextMeta(tasks[rec.slot])
      modifies this, arena
      ensures Valid() && origin == old(origin) && old(log) <= log && |arena.cells| == |old(arena.cells)|
      ensures Failures() >= old(Failures()) && (ok <==> Failures() == old(Failures()))
      ensures tasks == old(tasks)[rec.slot := if !ok then Idle
                                  else Discarding(rec, if from == Leaving then Tombed else FreeFlushed)]
      ensures arena.cells[rec.slot].payload == old(arena.cells)[rec.slot].payload
      ensures ok ==> arena.cells[rec.slot] == old(arena.cells)[rec.slot].(seen := Known(m), disk := {Known(m)})
      ensures forall j :: 0 <= j < |arena.cells| && j != rec.slot ==> Untouched(old(arena.cells)[j], arena.cells[j])
    {
      var i := rec.slot;
      ghost var kept;
      ok, kept := WriteSideOf(i, m);
      if ok { ok := FlushSideOf(i); }
      if !ok { Stop(i); }
    }

    /** finish_cache_deallocation. */
    method FinishSlot(rec: Record)
      requires Valid() && rec.slot < |db.rows| && tasks[rec.slot] == Discarding(rec, FreeFlushed)
      modifies this, db
      ensures Valid() && origin == old(origin) && old(log) <= log && tasks == old(tasks)[rec.slot := Idle]
      ensures db.rows == old(db.rows)[rec.slot := Row(rec.generation, Free, None, 0)]
    {
      SlotIsSound(rec.slot);
      ghost var w := Now();
      var finished := db.FinishDeallocation(rec);
      Did(Finish(rec.slot), w);
    }

    /** mark_cache_deallocation_retry. */
    method DeferSlot(rec: Record, ghost at: DiscardStage)
      requires Valid() && rec.slot < |db.rows| && tasks[rec.slot] == Discarding(rec, at)
               && (at == Tombed || at == Zeroing)
      requires db.rows[rec.slot].state.Evicting? && rec.state.Evicting?
      modifies this, db
      ensures Valid() && origin == old(origin) && old(log) <= log && tasks == old(tasks)[rec.slot := Idle]
      ensures db.rows == old(db.rows)[rec.slot := old(db.rows)[rec.slot].(state := RetryDeallocate)]
    {
      SlotIsSound(rec.slot);
      ghost var w := Now();
      var marked := db.MarkRetry(rec);
      Did(DeallocateFailed(rec.slot), w);
    }

    /** What clearing away the slot of an evicting row made of the row. */
    function ClearedRow(row: Row, c: Clearing): Row {
      match c
      case Cleared => Row(row.generation, Free, None, 0)
      case Deferred => row.(state := RetryDeallocate)
      case Broken => row
    }

    /** Tombstones the sidecar, zeroes the payload, frees the sidecar and then the row. */
    method Discard(rec: Record) returns (c: Clearing)
      requires Valid() && rec.slot < |db.rows| && tasks[rec.slot] == Discarding(rec, Leaving)
               && db.rows[rec.slot].state.Evicting?
      requires rec.state.Evicting?
      modifies this, arena, db
      ensures Valid() && origin == old(origin) && old(log) <= log && tasks == old(tasks)[rec.slot := Idle]
      ensures Failures() >= old(Failures()) && (c.Cleared? <==> Failures() == old(Failures()))
      ensures db.rows == old(db.rows)[rec.slot := ClearedRow(old(db.rows)[rec.slot], c)]
      ensures c.Cleared? ==>
                OnlyOnDisk(arena.cells[rec.slot], FreeMeta(rec.generation))
                    && arena.cells[rec.slot].payload == Zeros(cfg.pageSize)
    {
      SlotIsSound(rec.slot);
      var ok := Inscribe(rec, Leaving, MetaFor(rec.generation, Evicting, rec.hash, rec.length));
      if !ok { return Broken; }
      ghost var at;
      ok, at := DeallocateSlot(rec);
      if !ok {
        DeferSlot(rec, at);
        assert tasks == old(tasks)[rec.slot := Idle];
        return Deferred;
      }
      ok := FreeSlot(rec);
      c := if ok then Cleared else Broken;
    }

    /** write_free, then the row. */
    method FreeSlot(rec: Record) returns (ok: bool)
      requires Valid() && rec.slot < |db.rows| && tasks[rec.slot] == Discarding(rec, Zeroed)
      modifies this, arena, db
      ensures Valid() && origin == old(origin) && old(log) <= log && tasks == old(tasks)[rec.slot := Idle]
      ensures Failures() >= old(Failures()) && (ok <==> Failures() == old(Failures()))
      ensures db.rows == if ok then old(db.rows)[rec.slot := Row(rec.generation, Free, None, 0)] else old(db.rows)
      ensures |arena.cells| == |old(arena.cells)| && arena.cells[rec.slot].payload == old(arena.cells)[rec.slot].payload
      ensures ok ==> arena.cells[rec.slot]
                     == old(arena.cells)[rec.slot].(seen := Known(FreeMeta(rec.generation)),
                                                    disk := {Known(FreeMeta(rec.generation))})
      ensures forall j :: 0 <= j < |arena.cells| && j != rec.slot ==> Untouched(old(arena.cells)[j], arena.cells[j])
    {
      SlotIsSound(rec.slot);
      ok := Inscribe(rec, Zeroed, FreeMeta(rec.generation));
      if ok { FinishSlot(rec); }
    }

    method WriteQuietly(i: nat, m: Meta)
      requires Valid() && i < |db.rows| && tasks[i].Discarding? && AtSideWrite(tasks[i]) && m == NextMeta(tasks[i])
      modifies this, arena
      ensures Valid() && origin == old(origin) && old(log) <= log && Failures() >= old(Failures())
      ensures tasks == old(tasks)[i := Advance(old(tasks)[i])]
    {
      ghost var kept;
      var ok;
      ok, kept := WriteSideOf(i, m);
      if !kept { Pass(i); }
    }

    method FlushQuietly(i: nat)
      requires Valid() && i < |db.rows| && tasks[i].Discarding? && AtSideFlush(tasks[i])
      modifies this, arena
      ensures Valid() && origin == old(origin) && old(log) <= log && Failures() >= old(Failures())
      ensures tasks == old(tasks)[i := Advance(old(tasks)[i])]
    {
      var ok := FlushSideOf(i);
      if !ok { Pass(i); }
    }

    /** A sidecar record is written and flushed, and errors are ignored. */
    method InscribeQuietly(rec: Record, ghost from: DiscardStage, m: Meta)
      requires Valid() && rec.slot < |db.rows| && tasks[rec.slot] == Discarding(rec, from)
      requires (from == Leaving || from == Zeroed) && m == NextMeta(tasks[rec.slot])
      modifies this, arena
      ensures Valid() && origin == old(origin) && old(log) <= log && Failures() >= old(Failures())
      ensures tasks == old(tasks)[rec.slot := Discarding(rec, if from == Leaving then Tombed else FreeFlushed)]
    {
      WriteQuietly(rec.slot, m);
      FlushQuietly(rec.slot);
    }

    /**
     SlotReservation::quarantine_and_deallocate, run when an insertion gives up. It ignores
     the errors of the sidecar; only a failed deallocation leaves the row for another try.
     */
    method DropReservation(rec: Record) returns (ghost c: Clearing)
      requires Valid() && rec.slot < |db.rows| && tasks[rec.slot].Inserting? && tasks[rec.slot].rec == rec
      modifies this, arena, db
      ensures Valid() && origin == old(origin) && old(log) <= log && tasks == old(tasks)[rec.slot := Idle]
      ensures Failures() >= old(Failures())
      ensures db.rows == old(db.rows)[rec.slot := ClearedRow(old(db.rows)[rec.slot], c)]
      ensures c != Broken && (Failures() == old(Failures()) ==> c == Cleared)
    {
      var i := rec.slot;
      SlotIsSound(i);
      ghost var w := Now();
      var released := db.Release(rec);
      Did(Abandon(i), w);
      assert db.rows == old(db.rows)[i := old(db.rows)[i].(state := Evicting)];
      c := DropDiscard(rec.(state := Evicting));
    }

    method DropDiscard(rec: Record) returns (ghost c: Clearing)
      requires Valid() && rec.slot < |db.rows| && tasks[rec.slot] == Discarding(rec, Leaving)
               && db.rows[rec.slot].state.Evicting?
      requires rec.state.Evicting?
      modifies this, arena, db
      ensures Valid() && origin == old(origin) && old(log) <= log && tasks == old(tasks)[rec.slot := Idle]
      ensures Failures() >= old(Failures())
      ensures db.rows == old(db.rows)[rec.slot := ClearedRow(old(db.rows)[rec.slot], c)]
      ensures c != Broken && (Failures() == old(Failures()) ==> c == Cleared)
    {
      SlotIsSound(rec.slot);
      InscribeQuietly(rec, Leaving, MetaFor(rec.generation, Evicting, rec.hash, rec.length));
      ghost var at;
      var ok;
      ok, at := DeallocateSlot(rec);
      if ok {
        InscribeQuietly(rec, Zeroed, FreeMeta(rec.generation));
        FinishSlot(rec);
        c := Cleared;
      } else {
        DeferSlot(rec, at);
        c := Deferred;
      }
      assert tasks == old(tasks)[rec.slot := Idle];
    }

    /**
     The end of insert_page: the row becomes resident, or the copy of a page someone else published
     is thrown away.
     */
    method PublishPage(rec: Record, bytes: Bytes, fails: InsertStep -> bool, lenient: bool)
      returns (outcome: Result<InsertOutcome>, ghost c: Clearing)
      requires Valid() && rec.slot < |db.rows| && tasks[rec.slot] == Inserting(rec, bytes, Sealed) && rec.hash.Some?
      modifies this, arena, db
      ensures Valid() && origin == old(origin) && old(log) <= log && tasks == old(tasks)[rec.slot := Idle]
      ensures Failures() >= old(Failures())
      ensures var held := FindHash(old(db.rows), rec.hash.value, Resident, 0);
              if held < |old(db.rows)| then
                && (c.Cleared? <==> Failures() == old(Failures()))
                && outcome == (if c.Cleared? || (c.Deferred? && lenient)
                               then Ok(Existing(RecordOf(old(db.rows), held))) else Err)
                && db.rows == old(db.rows)[rec.slot := ClearedRow(old(db.rows)[rec.slot].(state := Evicting), c)]
              else
                && outcome == (if fails(StepMetadataCommitted) then Err else Ok(Inserted(rec.(state := Resident))))
                && db.rows == old(db.rows)[rec.slot := old(db.rows)[rec.slot].(state := Resident)]
                && arena.cells == old(arena.cells) && Failures() == old(Failures())
    {
      var i := rec.slot;
      SlotIsSound(i);
      ghost var w := Now();
      var committed := db.CommitSlot(rec);
      Did(Commit(i), w);
      match committed
      case Ok(Committed(resident)) =>
        return if fails(StepMetadataCommitted) then Err else Ok(Inserted(resident)), Cleared;
      case Ok(Duplicate(existing)) =>
        assert db.rows == old(db.rows)[i := old(db.rows)[i].(state := Evicting)];
        var clearing := Discard(rec.(state := Evicting));
        assert db.rows == old(db.rows)[i := ClearedRow(old(db.rows)[i].(state := Evicting), clearing)];
        return if clearing.Cleared? || (clearing.Deferred? && lenient) then Ok(Existing(existing)) else Err, clearing;
      case Err =>
        assert false;
    }

    /** What inserting into the claimed slot `i` may have done to the table. */
    ghost predicate InsertEffect(before: seq<Row>, after: seq<Row>, rec: Record, outcome: Result<InsertOutcome>,
                                 reported: bool)
    {
      && |after| == |before| && rec.slot < |before|
      && (forall j :: 0 <= j < |before| && j != rec.slot ==> after[j] == before[j])
      && (outcome.Ok? && outcome.value.Inserted? ==> outcome.value.record == rec.(state := Resident))
      && (outcome.Ok? && outcome.value.Existing? ==>
            var r := outcome.value.record; r.slot < |after| && r.slot != rec.slot && r == RecordOf(after, r.slot)
                                           && r.state.Resident? && r.hash == rec.hash)
      && (after[rec.slot].state.Resident? <==> (outcome.Ok? && outcome.value.Inserted?) || (outcome.Err? && !reported))
      && (after[rec.slot].state.Resident? ==> after[rec.slot] == before[rec.slot].(state := Resident))
      && (!after[rec.slot].state.Resident? ==> after[rec.slot].state in {Free, RetryDeallocate, Evicting})
    }

    /** Both halves: the page is sealed on disk under its hash, or the insertion has got stuck somewhere. */
    method Prepare(rec: Record, bytes: Bytes, fails: InsertStep -> bool) returns (ok: bool, ghost stage: InsertStage)
      requires Valid() && rec.slot < |db.rows| && tasks[rec.slot] == Inserting(rec, bytes, Claim)
      requires rec.hash.Some? && rec.length == |bytes|
      modifies this, arena
      ensures Valid() && origin == old(origin) && old(log) <= log && Holding(old(tasks), rec, bytes, stage)
      ensures |arena.cells| == |old(arena.cells)| && Failures() >= old(Failures())
      ensures ok ==> stage == Sealed && rec.hash == Some(cfg.digest(bytes)) && bytes <= arena.cells[rec.slot].payload
      ensures ok ==> Failures() == old(Failures())
      ensures ok <== Failures() == old(Failures()) && rec.hash == Some(cfg.digest(bytes)) && forall step :: !fails(step)
    {
      ok, stage := WritePage(rec, bytes, fails);
      if ok {
        assert arena.cells[rec.slot].payload[..rec.length] == bytes;
        ok, stage := SealPage(rec, bytes, fails);
      }
    }

    /**
     What insert_page and insert_reserved_page share: on success the page is resident with
     exactly these bytes; on any error reported before the commit the slot is given back. The
     latter is lenient: a duplicate that cannot be cleared away yet is no error.
     */
    method InsertReserved(rec: Record, bytes: Bytes, fails: InsertStep -> bool, lenient: bool)
      returns (outcome: Result<InsertOutcome>, ghost reported: bool)
      requires Valid() && rec.slot < |db.rows| && tasks[rec.slot] == Inserting(rec, bytes, Claim)
      modifies this, arena, db
      ensures Valid() && origin == old(origin) && old(log) <= log && tasks == old(tasks)[rec.slot := Idle]
      ensures InsertEffect(old(db.rows), db.rows, rec, outcome, reported)
      ensures db.rows[rec.slot].state.Resident? ==>
                rec.hash == Some(cfg.digest(bytes)) && bytes <= arena.cells[rec.slot].payload
      ensures !reported ==> fails(StepMetadataCommitted)
      ensures Failures() >= old(Failures())
      ensures Failures() == old(Failures()) && !db.rows[rec.slot].state.Resident? ==> db.rows[rec.slot].state.Free?
      ensures Failures() == old(Failures()) && rec.hash == Some(cfg.digest(bytes)) && (forall step :: !fails(step)) ==>
                outcome.Ok?
    {
      SlotIsSound(rec.slot);
      ghost var stage, c;
      var ok;
      ok, stage := Prepare(rec, bytes, fails);
      if !ok {
        c := DropReservation(rec);
        assert tasks == old(tasks)[rec.slot := Idle];
        return Err, true;
      }
      outcome, c := PublishPage(rec, bytes, fails, lenient);
      assert tasks == old(tasks)[rec.slot := Idle];
      reported := outcome.Ok? || !db.rows[rec.slot].state.Resident?;
    }

    /**
     insert_page. A page becomes resident only once its bytes are on disk under its hash,
     and no insertion ever disturbs a page that already is, whatever fails.
     */
    method InsertPage(hash: PageHash, bytes: Bytes, fails: InsertStep -> bool) returns (outcome: Result<InsertOutcome>)
      requires Valid() && forall i :: 0 <= i < |db.rows| && db.rows[i].state.Free? ==> tasks[i].Idle?
      modifies this, arena, db
      ensures Valid() && origin == old(origin) && old(log) <= log && tasks == old(tasks) && |db.rows| == |old(db.rows)|
      ensures outcome.Ok? ==>
                var rec := outcome.value.record;
                rec.slot < |db.rows| && rec == RecordOf(db.rows, rec.slot) && rec.state.Resident?
                    && rec.hash == Some(hash)
      ensures outcome.Ok? && outcome.value.Inserted? ==>
                var rec := outcome.value.record;
                old(db.rows)[rec.slot].state.Free? && cfg.digest(bytes) == hash
                    && bytes <= arena.cells[rec.slot].payload
      ensures forall j :: 0 <= j < |db.rows| && old(db.rows)[j].state.Resident? ==> db.rows[j] == old(db.rows)[j]
      ensures outcome.Err? && !fails(StepMetadataCommitted) ==>
                forall j :: 0 <= j < |db.rows| ==> (db.rows[j].state.Resident? <==> old(db.rows)[j].state.Resident?)
      ensures Failures() == old(Failures()) ==>
                forall j :: 0 <= j < |db.rows| && old(db.rows)[j].state.Free? ==>
                    db.rows[j].state.Free? || db.rows[j].state.Resident?
    {
      if |bytes| == 0 || |bytes| > cfg.pageSize { return Err; }
      ghost var w := Now();
      var claim := db.Reserve(hash, |bytes|);
      if claim.Err? { return Err; }
      if claim.value.AlreadyResident? { return Ok(Existing(claim.value.record)); }
      var rec := claim.value.record;
      Did(Reserve(hash, bytes), w);
      assert tasks == old(tasks)[rec.slot := Inserting(rec, bytes, Claim)];
      ghost var reported;
      outcome, reported := InsertReserved(rec, bytes, fails, false);
      assert tasks == old(tasks);
    }

    /** insert_reserved_page: a record that does not fit its payload is refused and nothing is touched. */
    method InsertReservedPage(rec: Record, hash: PageHash, bytes: Bytes, fails: InsertStep -> bool)
      returns (outcome: Result<InsertOutcome>, ghost reported: bool)
      requires Valid()
      requires rec.state.Reserved? && rec.hash == Some(hash) && rec.length == |bytes| && 0 < |bytes| <= cfg.pageSize ==>
                 rec.slot < |db.rows| && tasks[rec.slot] == Inserting(rec, bytes, Claim)
      modifies this, arena, db
      ensures Valid() && origin == old(origin) && old(log) <= log
      ensures var fits := rec.state.Reserved? && rec.hash == Some(hash) && rec.length == |bytes|
              && 0 < |bytes| <= cfg.pageSize;
              if !fits then outcome.Err? && Now() == old(Now())
              else
                && tasks == old(tasks)[rec.slot := Idle] && InsertEffect(old(db.rows), db.rows, rec, outcome, reported)
                && (db.rows[rec.slot].state.Resident? ==>
                    cfg.digest(bytes) == hash && bytes <= arena.cells[rec.slot].payload)
                && (!reported ==> fails(StepMetadataCommitted))
                && (Failures() == old(Failures()) && cfg.digest(bytes) == hash && (forall step :: !fails(step)) ==>
                    outcome.Ok?)
    {
      if !rec.state.Reserved? || rec.hash != Some(hash) || rec.length != |bytes| || |bytes| == 0
          || |bytes| > cfg.pageSize {
        return Err, true;
      }
      outcome, reported := InsertReserved(rec, bytes, fails, true);
    }

    /** evict_inner, once the read gate is won. */
    method EvictPage(i: nat) returns (c: Clearing)
      requires Valid() && i < |db.rows| && db.rows[i].state.Resident?
      modifies this, arena, db
      ensures Valid() && origin == old(origin) && old(log) <= log && tasks == old(tasks)
      ensures Failures() >= old(Failures()) && (c.Cleared? <==> Failures() == old(Failures()))
      ensures db.rows == old(db.rows)[i := ClearedRow(old(db.rows)[i].(state := Evicting), c)]
      ensures c.Cleared? ==>
                OnlyOnDisk(arena.cells[i], FreeMeta(db.rows[i].generation))
                    && arena.cells[i].payload == Zeros(cfg.pageSize)
    {
      SlotIsSound(i);
      ghost var w := Now();
      var evicting := db.BeginEviction(RecordOf(db.rows, i));
      Did(BeginEvict(i), w);
      assert db.rows == old(db.rows)[i := old(db.rows)[i].(state := Evicting)];
      c := Discard(evicting.value);
      assert tasks == old(tasks);
    }

    // ----- Reconcile -----

    /** The row of a slot under repair leaves its settled state. */
    method Resume(i: nat) returns (rec: Record)
      requires Valid() && i < |db.rows| && tasks[i].Idle? && ActionFor(db.rows[i], arena.cells[i].seen).Some?
      modifies this, db
      ensures Valid() && origin == old(origin) && old(log) <= log
      ensures var row := old(db.rows)[i];
              var live := row.state.Resident? || row.state.Reserved?;
              && rec == Record(i, row.generation, if live then Evicting else row.state, row.hash, row.length)
              && tasks == old(tasks)[i := Discarding(rec, if live then Leaving else Tombed)]
      ensures |db.rows| == |old(db.rows)| && forall j :: 0 <= j < |db.rows| && j != i ==> db.rows[j] == old(db.rows)[j]
    {
      SlotIsSound(i);
      ghost var w := Now();
      var row := db.rows[i];
      match row.state {
        case Reserved => var released := db.Release(RecordOf(db.rows, i));
        case Resident => var evicting := db.BeginEviction(RecordOf(db.rows, i));
        case _ =>
      }
      Did(Recover(i), w);
      rec := Record(i, row.generation, if row.state.Resident? || row.state.Reserved? then Evicting else row.state,
                    row.hash, row.length);
    }

    /** Reconcile takes a slot up: its row leaves the settled states and the tombstone is on disk. */
    method TakeUp(i: nat) returns (ok: bool, rec: Record)
      requires Valid() && i < |db.rows| && tasks[i].Idle? && ActionFor(db.rows[i], arena.cells[i].seen).Some?
      modifies this, arena, db
      ensures Valid() && origin == old(origin) && old(log) <= log
      ensures tasks == old(tasks)[i := if ok then Discarding(rec, Tombed) else Idle]
      ensures Failures() >= old(Failures()) && (ok <==> Failures() == old(Failures()))
      ensures rec.slot == i && rec.generation == old(db.rows)[i].generation
      ensures |db.rows| == |old(db.rows)| && forall j :: 0 <= j < |db.rows| && j != i ==> db.rows[j] == old(db.rows)[j]
      ensures |arena.cells| == |old(arena.cells)| && arena.cells[i].payload == old(arena.cells)[i].payload
      ensures forall j :: 0 <= j < |arena.cells| && j != i ==> Untouched(old(arena.cells)[j], arena.cells[j])
    {
      var live := db.rows[i].state.Resident? || db.rows[i].state.Reserved?;
      rec := Resume(i);
      ok := true;
      if live {
        ok := Inscribe(rec, Leaving, MetaFor(rec.generation, Evicting, rec.hash, rec.length));
      }
    }

    /** deallocate_slot, write_free, finish: the tail of a repair. An error leaves the row to the next reconcile. */
    method WipeAndFree(rec: Record) returns (ok: bool)
      requires Valid() && rec.slot < |db.rows| && tasks[rec.slot] == Discarding(rec, Tombed)
      modifies this, arena, db
      ensures Valid() && origin == old(origin) && old(log) <= log && tasks == old(tasks)[rec.slot := Idle]
      ensures Failures() >= old(Failures()) && (ok <==> Failures() == old(Failures()))
      ensures db.rows == if ok then old(db.rows)[rec.slot := Row(rec.generation, Free, None, 0)] else old(db.rows)
      ensures |arena.cells| == |old(arena.cells)|
      ensures ok ==> arena.cells[rec.slot]
                     == Cell(Known(FreeMeta(rec.generation)), {Known(FreeMeta(rec.generation))}, Zeros(cfg.pageSize),
                             true)
      ensures forall j :: 0 <= j < |arena.cells| && j != rec.slot ==> Untouched(old(arena.cells)[j], arena.cells[j])
    {
      ghost var at;
      ok, at := DeallocateSlot(rec);
      if !ok {
        Stop(rec.slot);
        return;
      }
      ok := FreeSlot(rec);
    }

    /** One slot of reconcile, repaired for real, or left half repaired by an error. */
    method RepairSlot(i: nat) returns (ok: bool)
      requires Valid() && i < |db.rows| && tasks[i].Idle? && ActionFor(db.rows[i], arena.cells[i].seen).Some?
      modifies this, arena, db
      ensures Valid() && origin == old(origin) && old(log) <= log && tasks == old(tasks)
      ensures Failures() >= old(Failures()) && (ok <==> Failures() == old(Failures()))
      ensures |db.rows| == |old(db.rows)| && forall j :: 0 <= j < |db.rows| && j != i ==> db.rows[j] == old(db.rows)[j]
      ensures |arena.cells| == |old(arena.cells)|
      ensures ok ==> SlotReconciled(cfg, old(db.rows)[i], old(arena.cells)[i], db.rows[i], arena.cells[i])
      ensures forall j :: 0 <= j < |arena.cells| && j != i ==> Untouched(old(arena.cells)[j], arena.cells[j])
    {
      var rec;
      ok, rec := TakeUp(i);
      if ok { ok := WipeAndFree(rec); }
      assert tasks == old(tasks);
    }

    /** Slots below `i` have been visited, the others are as in `w` but for flushes. */
    ghost predicate Swept(w: World, i: nat, dryRun: bool)
      reads this, db, arena
    {
      && Shaped(w) && Shaped(Now()) && i <= |w.rows| == |db.rows| && tasks == w.tasks
      && (forall j :: 0 <= j < |w.rows| ==> w.tasks[j].Idle?)
      && (dryRun ==> Now() == w)
      && (forall j :: i <= j < |w.rows| ==> db.rows[j] == w.rows[j] && Untouched(w.cells[j], arena.cells[j]))
      && (!dryRun ==> forall j :: 0 <= j < i ==>
          SlotReconciled(cfg, w.rows[j], w.cells[j], db.rows[j], FlushCell(arena.cells[j])))
    }

    /** However far reconcile got: nobody holds a slot, and a slot that needed no repair is as it was. */
    ghost predicate Spared(w: World)
      reads this, db, arena
    {
      && Shaped(w) && Shaped(Now()) && |w.rows| == |db.rows| && tasks == w.tasks
      && forall j :: 0 <= j < |w.rows| && ActionFor(w.rows[j], w.cells[j].seen).None? ==>
           db.rows[j] == w.rows[j] && arena.cells[j].seen == w.cells[j].seen
               && arena.cells[j].payload == w.cells[j].payload
    }

    method VisitSlot(i: nat, dryRun: bool, ghost w: World) returns (ok: bool, action: Option<Action>)
      requires Valid() && i < |w.rows| && Swept(w, i, dryRun)
      modifies this, arena, db
      ensures Valid() && origin == old(origin) && old(log) <= log && Spared(w) && (ok ==> Swept(w, i + 1, dryRun))
      ensures Failures() >= old(Failures()) && (ok <==> Failures() == old(Failures()))
      ensures action == ActionFor(w.rows[i], w.cells[i].seen)
      ensures dryRun ==> ok
    {
      ok, action := true, ActionFor(db.rows[i], arena.cells[i].seen);
      if action.Some? && !dryRun {
        ok := RepairSlot(i);
      }
    }

    method FlushRepairs(ghost w: World) returns (ok: bool)
      requires Valid() && Inv(cfg, w) && Swept(w, |w.rows|, false)
      modifies this, arena
      ensures Valid() && origin == old(origin) && old(log) <= log && Spared(w) && db.rows == old(db.rows)
      ensures Failures() >= old(Failures()) && (ok <==> Failures() == old(Failures()))
      ensures ok ==> Reconciled(cfg, w, Now()) && AllClean(cfg, Now()) && Actions(db.rows, arena.cells, |db.rows|) == []
    {
      ghost var before := Now();
      ok := arena.FlushMetadata();
      if ok {
        Did(Sync, before);
        assert Reconciled(cfg, w, Now());
        SoundIsRepairable(cfg, w);
        ReconcileCleans(cfg, w, Now());
      }
    }

    /** The slots one after the other, each repaired as the report says, up to the first error. */
    method Sweep(dryRun: bool) returns (report: Result<Report>)
      requires Valid() && forall i :: 0 <= i < |db.rows| ==> tasks[i].Idle?
      modifies this, arena, db
      ensures Valid() && origin == old(origin) && old(log) <= log && Spared(old(Now()))
      ensures Failures() >= old(Failures()) && (report.Ok? <==> Failures() == old(Failures()))
              && (dryRun ==> report.Ok?)
      ensures report.Ok? ==>
                Swept(old(Now()), |old(db.rows)|, dryRun) && Counted(report.value, old(Now()), |old(db.rows)|, dryRun)
    {
      ghost var w := Now();
      var n := |db.rows|;
      var done := Report(0, 0, [], 0);
      for i := 0 to n
        invariant Valid() && origin == old(origin) && old(log) <= log && |w.rows| == n && Swept(w, i, dryRun)
        invariant Counted(done, w, i, dryRun) && Failures() == old(Failures()) && Spared(w)
      {
        var healthy := db.rows[i].state.Resident?;
        var ok, action := VisitSlot(i, dryRun, w);
        if !ok { return Err; }
        done := Tally(done, w, i, action, healthy, dryRun);
      }
      return Ok(done);
    }

    /**
     reconcile. Without an arena error every slot ends clean and there is nothing left to
     do; an error stops it, with every healthy slot untouched and the rest for the next
     pass. A dry run reports the same repairs and touches nothing.
     */
    method Reconcile(dryRun: bool) returns (report: Result<Report>)
      requires Valid() && forall i :: 0 <= i < |db.rows| ==> tasks[i].Idle?
      modifies this, arena, db
      ensures Valid() && origin == old(origin) && old(log) <= log && |db.rows| == |old(db.rows)|
      ensures Failures() >= old(Failures()) && (report.Ok? <==> Failures() == old(Failures()))
              && (dryRun ==> report.Ok?)
      ensures report.Ok? ==> Counted(report.value, old(Now()), |db.rows|, dryRun)
      ensures dryRun ==> Now() == old(Now())
      ensures !dryRun && report.Ok? ==> Reconciled(cfg, old(Now()), Now())
      ensures !dryRun && report.Ok? ==> AllClean(cfg, Now()) && Actions(db.rows, arena.cells, |db.rows|) == []
      ensures Spared(old(Now()))
    {
      ghost var w := Now();
      NowIsSound();
      report := Sweep(dryRun);
      if report.Ok? && !dryRun {
        var ok := FlushRepairs(w);
        if !ok { report := Err; }
      }
    }
  }

  /** The report so far says what was found in the first `i` slots. */
  ghost predicate Counted(report: Report, w: World, i: nat, dryRun: bool)
    requires i <= |w.rows| == |w.cells|
  {
    && report.inspected == i && report.actions == Actions(w.rows, w.cells, i)
    && report.repaired == (if dryRun then 0 else |report.actions|) && report.healthy == Healthy(w.rows, w.cells, i)
  }

  method Tally(report: Report, ghost w: World, i: nat, action: Option<Action>, healthy: bool, dryRun: bool)
    returns (out: Report)
    requires i < |w.rows| == |w.cells| && Counted(report, w, i, dryRun)
    requires action == ActionFor(w.rows[i], w.cells[i].seen) && healthy == w.rows[i].state.Resident?
    ensures Counted(out, w, i + 1, dryRun)
  {
    out := report.(inspected := i + 1);
    if action.Some? {
      out := out.(actions := out.actions + [(i, action.value)], repaired := if dryRun then 0 else out.repaired + 1);
    } else if healthy {
      out := out.(healthy := out.healthy + 1);
    }
  }

  /** What another slot's flushes may do to a cell. */
  predicate Untouched(c: Cell, d: Cell) {
    d.seen == c.seen && d.payload == c.payload && (d.disk == c.disk || d.disk == {c.seen}) && (c.settled ==> d.settled)
  }
}
