/**
 Batch insertion (crates/mirage-cache/src/insert.rs:172-262): up to 64 reserved pages are
 marked, written, flushed, read back, sealed and committed together, or all given up. The
 bytes go to the arena page by page here; that runs of pages can go in one write is proved
 in ArenaIo. As in CacheStore, what the methods do is a run of the slot protocol.
 */
module CacheBatch {
  import opened Basics
  import opened CacheTable
  import opened SlotProtocol
  import opened CacheStore

  const MAX_PAGES: nat := 64
  const MAX_BYTES: nat := 33554432

  datatype Page = Page(rec: Record, bytes: Bytes)

  predicate DistinctPages(pages: seq<Page>) {
    forall j, k :: 0 <= j < k < |pages| ==>
        pages[j].rec.slot != pages[k].rec.slot && pages[j].rec.hash != pages[k].rec.hash
  }

  predicate PageOk(pageSize: nat, slots: nat, p: Page) {
    p.rec.state.Reserved? && p.rec.hash.Some? && p.rec.length == |p.bytes| && 0 < |p.bytes| <= pageSize
        && p.rec.slot < slots
  }

  function TotalBytes(pages: seq<Page>): nat {
    if |pages| == 0 then 0 else TotalBytes(pages[..|pages| - 1]) + |pages[|pages| - 1].bytes|
  }

  /** What the argument checks let through. */
  predicate Acceptable(pageSize: nat, slots: nat, pages: seq<Page>) {
    && 1 <= |pages| <= MAX_PAGES
    && (forall k :: 0 <= k < |pages| ==> PageOk(pageSize, slots, pages[k]))
    && DistinctPages(pages) && TotalBytes(pages) <= MAX_BYTES
  }

  predicate InRange(pages: seq<Page>, slots: nat) {
    forall k :: 0 <= k < |pages| ==> pages[k].rec.slot < slots
  }

  predicate DistinctSlots(pages: seq<Page>) {
    forall j, k :: 0 <= j < k < |pages| ==> pages[j].rec.slot != pages[k].rec.slot
  }

  predicate Has(pages: seq<Page>, j: nat) {
    exists k :: 0 <= k < |pages| && pages[k].rec.slot == j
  }

  /** The first `k` insertions stand at `to`, the others at `from`, and nobody else has moved. */
  ghost predicate At(tasks: seq<Task>, base: seq<Task>, pages: seq<Page>, k: nat, from: InsertStage, to: InsertStage) {
    && |tasks| == |base| && InRange(pages, |base|)
    && (forall m :: 0 <= m < |pages| ==>
        tasks[pages[m].rec.slot] == Inserting(pages[m].rec, pages[m].bytes, if m < k then to else from))
    && (forall j :: 0 <= j < |base| && !Has(pages, j) ==> tasks[j] == base[j])
  }

  lemma AtNext(tasks: seq<Task>, base: seq<Task>, pages: seq<Page>, k: nat, from: InsertStage, to: InsertStage)
    requires At(tasks, base, pages, k, from, to) && DistinctSlots(pages) && k < |pages|
    ensures At(tasks[pages[k].rec.slot := Inserting(pages[k].rec, pages[k].bytes, to)], base, pages, k + 1, from, to)
  {
    forall j | 0 <= j < |base| && !Has(pages, j)
      ensures j != pages[k].rec.slot
    {
    }
  }

  predicate SamePayloads(a: seq<Cell>, b: seq<Cell>) {
    |a| == |b| && forall j :: 0 <= j < |a| ==> a[j].payload == b[j].payload
  }

  method WriteOneSide(store: Store, pages: seq<Page>, ghost base: seq<Task>, from: InsertStage, k: nat)
    returns (ok: bool, ghost n: nat)
    requires store.Valid() && DistinctSlots(pages) && (from == Claim || from == Rehashed) && k < |pages|
    requires At(store.tasks, base, pages, k, from, if from == Claim then MarkWritten else SealWritten)
    modifies store, store.arena
    ensures store.Valid() && store.origin == old(store.origin) && old(store.log) <= store.log
    ensures store.Failures() == old(store.Failures()) + if ok then 0 else 1
    ensures k <= n <= k + 1 && (ok ==> n == k + 1)
    ensures At(store.tasks, base, pages, n, from, if from == Claim then MarkWritten else SealWritten)
    ensures SamePayloads(store.arena.cells, old(store.arena.cells))
  {
    var rec := pages[k].rec;
    ghost var to := if from == Claim then MarkWritten else SealWritten;
    ghost var kept;
    AtNext(store.tasks, base, pages, k, from, to);
    assert store.tasks[rec.slot] == Inserting(rec, pages[k].bytes, from);
    var m := MetaFor(rec.generation, if from == Claim then Reserved else Resident, rec.hash, rec.length);
    assert AtSideWrite(store.tasks[rec.slot]) && m == NextMeta(store.tasks[rec.slot]);
    assert Advance(store.tasks[rec.slot]) == Inserting(rec, pages[k].bytes, to);
    ok, kept := store.WriteSideOf(rec.slot, m);
    n := if kept then k + 1 else k;
  }

  /** The sidecar records of all pages, one after the other, not yet flushed. */
  method WriteSides(store: Store, pages: seq<Page>, ghost base: seq<Task>, from: InsertStage)
    returns (ok: bool, ghost n: nat)
    requires store.Valid() && DistinctSlots(pages) && (from == Claim || from == Rehashed)
    requires At(store.tasks, base, pages, 0, from, if from == Claim then MarkWritten else SealWritten)
    modifies store, store.arena
    ensures store.Valid() && store.origin == old(store.origin) && old(store.log) <= store.log
    ensures store.Failures() >= old(store.Failures()) && (ok <==> store.Failures() == old(store.Failures()))
    ensures n <= |pages| && At(store.tasks, base, pages, n, from, if from == Claim then MarkWritten else SealWritten)
    ensures (ok ==> n == |pages|) && SamePayloads(store.arena.cells, old(store.arena.cells))
  {
    ghost var to := if from == Claim then MarkWritten else SealWritten;
    for k := 0 to |pages|
      invariant store.Valid() && store.origin == old(store.origin) && old(store.log) <= store.log
      invariant store.Failures() == old(store.Failures())
      invariant At(store.tasks, base, pages, k, from, to) && SamePayloads(store.arena.cells, old(store.arena.cells))
    {
      ok, n := WriteOneSide(store, pages, base, from, k);
      if !ok { return; }
    }
    return true, |pages|;
  }

  lemma FlushSidesTwice(cells: seq<Cell>)
    ensures FlushSides(FlushSides(cells)) == FlushSides(cells)
  {
  }

  /** One flush of the sidecar completes the write of every page. */
  method FlushAllSides(store: Store, pages: seq<Page>, ghost base: seq<Task>, ghost from: InsertStage)
    returns (ok: bool)
    requires store.Valid() && DistinctSlots(pages) && |pages| > 0 && (from == MarkWritten || from == SealWritten)
    requires At(store.tasks, base, pages, 0, from, if from == MarkWritten then Marked else Sealed)
    modifies store, store.arena
    ensures store.Valid() && store.origin == old(store.origin) && old(store.log) <= store.log
    ensures store.Failures() >= old(store.Failures()) && (ok <==> store.Failures() == old(store.Failures()))
    ensures At(store.tasks, base, pages, if ok then |pages| else 0, from,
               if from == MarkWritten then Marked else Sealed)
    ensures SamePayloads(store.arena.cells, old(store.arena.cells))
  {
    ghost var to := if from == MarkWritten then Marked else Sealed;
    AtNext(store.tasks, base, pages, 0, from, to);
    ok := store.FlushSideOf(pages[0].rec.slot);
    if ok {
      FlushSidesTwice(old(store.arena.cells));
      BookSideFlushes(store, pages, base, from, to);
    }
  }

  /** The same flush, seen from the other insertions. */
  ghost method BookSideFlushes(store: Store, pages: seq<Page>, base: seq<Task>, from: InsertStage, to: InsertStage)
    requires store.Valid() && DistinctSlots(pages) && |pages| > 0
    requires (from == MarkWritten && to == Marked) || (from == SealWritten && to == Sealed)
    requires At(store.tasks, base, pages, 1, from, to) && FlushSides(store.arena.cells) == store.arena.cells
    modifies store
    ensures store.Valid() && store.origin == old(store.origin) && old(store.log) <= store.log
    ensures At(store.tasks, base, pages, |pages|, from, to)
  {
    for k := 1 to |pages|
      invariant store.Valid() && store.origin == old(store.origin) && old(store.log) <= store.log
      invariant At(store.tasks, base, pages, k, from, to)
    {
      AtNext(store.tasks, base, pages, k, from, to);
      store.Did(SideFlush(pages[k].rec.slot), store.Now());
    }
  }

  /** The first `k` pages are in the arena. */
  predicate Stored(cells: seq<Cell>, pages: seq<Page>, k: nat)
    requires InRange(pages, |cells|)
  {
    forall m :: 0 <= m < k && m < |pages| ==> pages[m].bytes <= cells[pages[m].rec.slot].payload
  }

  method WritePayloads(store: Store, pages: seq<Page>, ghost base: seq<Task>) returns (ok: bool, ghost n: nat)
    requires store.Valid() && DistinctSlots(pages) && At(store.tasks, base, pages, 0, Marked, Written)
    requires forall k :: 0 <= k < |pages| ==> |pages[k].bytes| <= store.cfg.pageSize
    modifies store, store.arena
    ensures store.Valid() && store.origin == old(store.origin) && old(store.log) <= store.log
    ensures store.Failures() >= old(store.Failures()) && (ok <==> store.Failures() == old(store.Failures()))
    ensures n <= |pages| && At(store.tasks, base, pages, n, Marked, Written) && |store.arena.cells| == |base|
    ensures ok ==> n == |pages| && Stored(store.arena.cells, pages, |pages|)
  {
    for k := 0 to |pages|
      invariant store.Valid() && store.origin == old(store.origin) && old(store.log) <= store.log
      invariant store.Failures() == old(store.Failures())
      invariant At(store.tasks, base, pages, k, Marked, Written) && |store.arena.cells| == |base|
      invariant Stored(store.arena.cells, pages, k)
    {
      AtNext(store.tasks, base, pages, k, Marked, Written);
      ghost var before := store.arena.cells;
      ghost var kept;
      ok, kept := store.WritePayloadOf(pages[k].rec.slot, pages[k].bytes);
      if !ok { return false, if kept then k + 1 else k; }
      StoredNext(before, store.arena.cells, pages, k);
    }
    return true, |pages|;
  }

  lemma StoredNext(before: seq<Cell>, after: seq<Cell>, pages: seq<Page>, k: nat)
    requires InRange(pages, |before|) && DistinctSlots(pages) && k < |pages| && Stored(before, pages, k)
    requires after == before[pages[k].rec.slot := WritePayload(before[pages[k].rec.slot], pages[k].bytes)]
    ensures Stored(after, pages, k + 1)
  {
  }

  lemma FlushPayloadsTwice(cells: seq<Cell>)
    ensures FlushPayloads(FlushPayloads(cells)) == FlushPayloads(cells) && SamePayloads(FlushPayloads(cells), cells)
  {
  }

  /** One flush of the arena settles the payload of every page. */
  method FlushAllPayloads(store: Store, pages: seq<Page>, ghost base: seq<Task>) returns (ok: bool)
    requires store.Valid() && DistinctSlots(pages) && |pages| > 0 && At(store.tasks, base, pages, 0, Written, Flushed)
    modifies store, store.arena
    ensures store.Valid() && store.origin == old(store.origin) && old(store.log) <= store.log
    ensures store.Failures() >= old(store.Failures()) && (ok <==> store.Failures() == old(store.Failures()))
    ensures At(store.tasks, base, pages, if ok then |pages| else 0, Written, Flushed)
    ensures SamePayloads(store.arena.cells, old(store.arena.cells))
  {
    AtNext(store.tasks, base, pages, 0, Written, Flushed);
    ok := store.FlushPayloadOf(pages[0].rec.slot);
    if ok {
      FlushPayloadsTwice(old(store.arena.cells));
      BookPayloadFlushes(store, pages, base);
    }
  }

  ghost method BookPayloadFlushes(store: Store, pages: seq<Page>, base: seq<Task>)
    requires store.Valid() && DistinctSlots(pages) && |pages| > 0
    requires At(store.tasks, base, pages, 1, Written, Flushed) && FlushPayloads(store.arena.cells) == store.arena.cells
    modifies store
    ensures store.Valid() && store.origin == old(store.origin) && old(store.log) <= store.log
    ensures At(store.tasks, base, pages, |pages|, Written, Flushed)
  {
    for k := 1 to |pages|
      invariant store.Valid() && store.origin == old(store.origin) && old(store.log) <= store.log
      invariant At(store.tasks, base, pages, k, Written, Flushed)
    {
      AtNext(store.tasks, base, pages, k, Written, Flushed);
      store.Did(PayloadFlush(pages[k].rec.slot), store.Now());
    }
  }

  /** Whether the bytes of every page have its digest. */
  predicate AllMatch(cfg: Config, pages: seq<Page>) {
    forall k :: 0 <= k < |pages| ==> Some(cfg.digest(pages[k].bytes)) == pages[k].rec.hash
  }

  /** Reads every page back and compares its digest with the reservation. */
  method RehashAll(store: Store, pages: seq<Page>, ghost base: seq<Task>) returns (ok: bool, ghost n: nat)
    requires store.Valid() && DistinctSlots(pages) && At(store.tasks, base, pages, 0, Flushed, Rehashed)
    requires |store.arena.cells| == |base| && Stored(store.arena.cells, pages, |pages|)
    requires forall k :: 0 <= k < |pages| ==> pages[k].rec.hash.Some? && pages[k].rec.length == |pages[k].bytes|
    modifies store, store.arena
    ensures store.Valid() && store.origin == old(store.origin) && old(store.log) <= store.log
    ensures n <= |pages| && At(store.tasks, base, pages, n, Flushed, Rehashed)
            && store.arena.cells == old(store.arena.cells)
    ensures store.Failures() >= old(store.Failures())
    ensures ok <==> AllMatch(store.cfg, pages) && store.Failures() == old(store.Failures())
    ensures ok ==> n == |pages|
  {
    for k := 0 to |pages|
      invariant store.Valid() && store.origin == old(store.origin) && old(store.log) <= store.log
      invariant store.arena.cells == old(store.arena.cells) && store.Failures() == old(store.Failures())
      invariant At(store.tasks, base, pages, k, Flushed, Rehashed)
      invariant forall m :: 0 <= m < k ==> Some(store.cfg.digest(pages[m].bytes)) == pages[m].rec.hash
    {
      var rec := pages[k].rec;
      var verified;
      ok, verified := store.arena.ReadSlot(rec.slot, rec.length);
      if !ok { return false, k; }
      assert verified == pages[k].bytes;
      if store.cfg.digest(verified) != rec.hash.value { return false, k; }
      AtNext(store.tasks, base, pages, k, Flushed, Rehashed);
      store.Did(Rehash(rec.slot), store.Now());
    }
    return true, |pages|;
  }

  /** Every reservation of the batch is still held by its insertion. */
  ghost predicate Held(tasks: seq<Task>, pages: seq<Page>, k: nat) {
    InRange(pages, |tasks|) && forall m :: k <= m < |pages| ==>
        tasks[pages[m].rec.slot].Inserting? && tasks[pages[m].rec.slot].rec == pages[m].rec
  }

  /** A slot that was given up: wiped and free, or waiting for another try. */
  predicate GivenUp(r: Row) {
    r.state.Free? || r.state.RetryDeallocate?
  }

  /** The first `k` reservations are dropped, the others held, and nobody else has moved. */
  ghost predicate Dropped(store: Store, rows: seq<Row>, tasks: seq<Task>, pages: seq<Page>, k: nat)
    reads store, store.db
  {
    && |store.db.rows| == |rows| == |store.tasks| == |tasks| && Held(store.tasks, pages, k)
    && (forall m :: 0 <= m < k && m < |pages| ==>
        GivenUp(store.db.rows[pages[m].rec.slot]) && store.tasks[pages[m].rec.slot].Idle?)
    && (forall j :: 0 <= j < |tasks| && !Has(pages, j) ==> store.tasks[j] == tasks[j] && store.db.rows[j] == rows[j])
  }

  method DropOne(store: Store, ghost rows: seq<Row>, ghost tasks: seq<Task>, pages: seq<Page>, k: nat)
    requires store.Valid() && DistinctSlots(pages) && k < |pages| && Dropped(store, rows, tasks, pages, k)
    modifies store, store.arena, store.db
    ensures store.Valid() && store.origin == old(store.origin) && old(store.log) <= store.log
    ensures store.Failures() >= old(store.Failures()) && Dropped(store, rows, tasks, pages, k + 1)
  {
    ghost var c := store.DropReservation(pages[k].rec);
  }

  /** Dropping the reservations of a failed batch, each on its own. */
  method DropAll(store: Store, pages: seq<Page>)
    requires store.Valid() && DistinctSlots(pages) && Held(store.tasks, pages, 0)
    modifies store, store.arena, store.db
    ensures store.Valid() && store.origin == old(store.origin) && old(store.log) <= store.log
    ensures store.Failures() >= old(store.Failures())
            && Dropped(store, old(store.db.rows), old(store.tasks), pages, |pages|)
  {
    for k := 0 to |pages|
      invariant store.Valid() && store.origin == old(store.origin) && old(store.log) <= store.log
      invariant store.Failures() >= old(store.Failures())
                && Dropped(store, old(store.db.rows), old(store.tasks), pages, k)
    {
      DropOne(store, old(store.db.rows), old(store.tasks), pages, k);
    }
  }

  function Records(pages: seq<Page>): (r: seq<Record>)
    ensures |r| == |pages| && forall k :: 0 <= k < |r| ==> r[k] == pages[k].rec
  {
    seq(|pages|, k requires 0 <= k < |pages| => pages[k].rec)
  }

  ghost function SlotsOf(pages: seq<Page>): (r: seq<nat>)
    ensures |r| == |pages| && forall k :: 0 <= k < |r| ==> r[k] == pages[k].rec.slot
  {
    seq(|pages|, k requires 0 <= k < |pages| => pages[k].rec.slot)
  }

  lemma SlotsAreHad(pages: seq<Page>, j: nat)
    ensures j in SlotsOf(pages) <==> Has(pages, j)
  {
    if Has(pages, j) {
      var k :| 0 <= k < |pages| && pages[k].rec.slot == j;
      assert SlotsOf(pages)[k] == j;
    }
  }

  /** What a committed batch does: its rows become resident and its insertions end. */
  ghost predicate Committed(before: World, after: World, pages: seq<Page>) {
    && Shaped(before) && Shaped(after) && |after.rows| == |before.rows| && InRange(pages, |before.rows|)
    && after.cells == before.cells
    && (forall m :: 0 <= m < |pages| ==>
          after.rows[pages[m].rec.slot] == before.rows[pages[m].rec.slot].(state := Resident)
              && after.tasks[pages[m].rec.slot].Idle?)
    && (forall j :: 0 <= j < |after.rows| && !Has(pages, j) ==>
        after.rows[j] == before.rows[j] && after.tasks[j] == before.tasks[j])
  }

  lemma CommitIsEnabled(cfg: Config, w: World, base: seq<Task>, pages: seq<Page>)
    requires Shaped(w) && |base| == |w.tasks| && At(w.tasks, base, pages, |pages|, SealWritten, Sealed)
    ensures Enabled(cfg, w, CommitAll(SlotsOf(pages))) && TaskRecords(w, SlotsOf(pages)) == Records(pages)
  {
  }

  lemma CommittedRows(w: World, pages: seq<Page>)
    requires UniqueResidents(w.rows) && InRange(pages, |w.rows|) && CommitBatchSpec(w.rows, Records(pages)).result.Ok?
    ensures var rows := CommitBatchSpec(w.rows, Records(pages)).rows;
            && |rows| == |w.rows|
            && (forall m :: 0 <= m < |pages| ==>
                rows[pages[m].rec.slot] == w.rows[pages[m].rec.slot].(state := Resident))
            && (forall j :: 0 <= j < |rows| && !Has(pages, j) ==> rows[j] == w.rows[j])
  {
    var recs := Records(pages);
    var rows := CommitBatchSpec(w.rows, recs).rows;
    PublishAllEffect(w.rows, recs);
    forall m | 0 <= m < |pages|
      ensures rows[pages[m].rec.slot] == w.rows[pages[m].rec.slot].(state := Resident)
    {
      assert Published(rows, recs[m]);
    }
    forall j | 0 <= j < |rows| && !Has(pages, j)
      ensures rows[j] == w.rows[j]
    {
      assert forall k :: 0 <= k < |recs| ==> recs[k].slot == pages[k].rec.slot != j;
    }
  }

  lemma CommitEffect(cfg: Config, w: World, base: seq<Task>, pages: seq<Page>)
    requires Inv(cfg, w) && |base| == |w.tasks| && At(w.tasks, base, pages, |pages|, SealWritten, Sealed)
    ensures Enabled(cfg, w, CommitAll(SlotsOf(pages))) && TaskRecords(w, SlotsOf(pages)) == Records(pages)
    ensures CommitBatchSpec(w.rows, Records(pages)).result.Ok? ==>
              Committed(w, Next(cfg, w, CommitAll(SlotsOf(pages))), pages)
    ensures CommitBatchSpec(w.rows, Records(pages)).result.Err? ==> Next(cfg, w, CommitAll(SlotsOf(pages))) == w
  {
    CommitIsEnabled(cfg, w, base, pages);
    if CommitBatchSpec(w.rows, Records(pages)).result.Ok? {
      CommittedRows(w, pages);
      forall j | 0 <= j < |w.rows|
        ensures j in SlotsOf(pages) <==> Has(pages, j)
      {
        SlotsAreHad(pages, j);
      }
      assert forall m :: 0 <= m < |pages| ==>
               SlotsOf(pages)[m] == pages[m].rec.slot && SlotsOf(pages)[m] in SlotsOf(pages);
    }
  }

  method CommitPages(store: Store, pages: seq<Page>, ghost base: seq<Task>) returns (result: Result<seq<Record>>)
    requires store.Valid() && |base| == |store.tasks| && At(store.tasks, base, pages, |pages|, SealWritten, Sealed)
    modifies store, store.db
    ensures store.Valid() && store.origin == old(store.origin) && old(store.log) <= store.log
    ensures result.Ok? ==> result.value == AsResident(Records(pages)) && Committed(old(store.Now()), store.Now(), pages)
    ensures result.Err? ==> store.Now() == old(store.Now())
    ensures result.Ok? <==> CommitBatchSpec(old(store.db.rows), Records(pages)).result.Ok?
  {
    ghost var w := store.Now();
    store.NowIsSound();
    CommitEffect(store.cfg, w, base, pages);
    result := store.db.CommitBatch(Records(pages));
    store.Did(CommitAll(SlotsOf(pages)), w);
  }

  /** The argument checks. */
  method CheckBatch(pageSize: nat, slots: nat, pages: seq<Page>) returns (ok: bool)
    ensures ok <==> Acceptable(pageSize, slots, pages)
  {
    if |pages| == 0 || |pages| > MAX_PAGES { return false; }
    var total := 0;
    for k := 0 to |pages|
      invariant forall m :: 0 <= m < k ==> PageOk(pageSize, slots, pages[m])
      invariant DistinctPages(pages[..k]) && total == TotalBytes(pages[..k])
    {
      if !PageOk(pageSize, slots, pages[k]) { return false; }
      if exists m :: 0 <= m < k
                     && (pages[m].rec.slot == pages[k].rec.slot
                         || pages[m].rec.hash == pages[k].rec.hash) { return false; }
      assert pages[..k + 1][..k] == pages[..k];
      total := total + |pages[k].bytes|;
    }
    assert pages[..|pages|] == pages;
    return total <= MAX_BYTES;
  }

  lemma AtShift(tasks: seq<Task>, base: seq<Task>, pages: seq<Page>, from: InsertStage, to: InsertStage,
                next: InsertStage)
    requires At(tasks, base, pages, |pages|, from, to)
    ensures At(tasks, base, pages, 0, to, next)
  {
  }

  /** Insertions of the batch are under way, and nobody else has moved. */
  ghost predicate UnderWay(tasks: seq<Task>, base: seq<Task>, pages: seq<Page>) {
    |tasks| == |base| && Held(tasks, pages, 0) && forall j :: 0 <= j < |base| && !Has(pages, j) ==> tasks[j] == base[j]
  }

  lemma AtIsUnderWay(tasks: seq<Task>, base: seq<Task>, pages: seq<Page>, k: nat, from: InsertStage, to: InsertStage)
    requires At(tasks, base, pages, k, from, to)
    ensures UnderWay(tasks, base, pages)
  {
  }

  /** The first half of a batch: marks, payloads and their flushes. */
  method WriteBatch(store: Store, pages: seq<Page>, ghost base: seq<Task>, fails: InsertStep -> bool) returns (ok: bool)
    requires store.Valid() && Acceptable(store.cfg.pageSize, |base|, pages)
             && At(store.tasks, base, pages, 0, Claim, MarkWritten)
    modifies store, store.arena
    ensures store.Valid() && store.origin == old(store.origin) && old(store.log) <= store.log
            && UnderWay(store.tasks, base, pages)
    ensures store.Failures() >= old(store.Failures())
    ensures ok
            <==> store.Failures() == old(store.Failures()) && !fails(StepReserved) && !fails(StepWritten)
                 && !fails(StepFlushed)
    ensures ok ==>
              At(store.tasks, base, pages, 0, Flushed, Rehashed) && |store.arena.cells| == |base|
                  && Stored(store.arena.cells, pages, |pages|)
  {
    ok := MarkBatch(store, pages, base, fails);
    if !ok { return; }
    ok := StoreBatch(store, pages, base, fails);
  }

  method MarkBatch(store: Store, pages: seq<Page>, ghost base: seq<Task>, fails: InsertStep -> bool) returns (ok: bool)
    requires store.Valid() && Acceptable(store.cfg.pageSize, |base|, pages)
             && At(store.tasks, base, pages, 0, Claim, MarkWritten)
    modifies store, store.arena
    ensures store.Valid() && store.origin == old(store.origin) && old(store.log) <= store.log
            && UnderWay(store.tasks, base, pages)
    ensures store.Failures() >= old(store.Failures())
            && (ok <==> store.Failures() == old(store.Failures()) && !fails(StepReserved))
    ensures ok ==> At(store.tasks, base, pages, 0, Marked, Written)
  {
    ghost var n;
    ok, n := WriteSides(store, pages, base, Claim);
    AtIsUnderWay(store.tasks, base, pages, n, Claim, MarkWritten);
    if !ok { return; }
    AtShift(store.tasks, base, pages, Claim, MarkWritten, Marked);
    ok := FlushAllSides(store, pages, base, MarkWritten);
    AtIsUnderWay(store.tasks, base, pages, if ok then |pages| else 0, MarkWritten, Marked);
    if !ok { return; }
    AtShift(store.tasks, base, pages, MarkWritten, Marked, Written);
    ok := !fails(StepReserved);
  }

  method StoreBatch(store: Store, pages: seq<Page>, ghost base: seq<Task>, fails: InsertStep -> bool) returns (ok: bool)
    requires store.Valid() && Acceptable(store.cfg.pageSize, |base|, pages)
             && At(store.tasks, base, pages, 0, Marked, Written)
    modifies store, store.arena
    ensures store.Valid() && store.origin == old(store.origin) && old(store.log) <= store.log
            && UnderWay(store.tasks, base, pages)
    ensures store.Failures() >= old(store.Failures())
    ensures ok <==> store.Failures() == old(store.Failures()) && !fails(StepWritten) && !fails(StepFlushed)
    ensures ok ==>
              At(store.tasks, base, pages, 0, Flushed, Rehashed) && |store.arena.cells| == |base|
                  && Stored(store.arena.cells, pages, |pages|)
  {
    ghost var n;
    ok, n := WritePayloads(store, pages, base);
    AtIsUnderWay(store.tasks, base, pages, n, Marked, Written);
    if !ok || fails(StepWritten) { return false; }
    AtShift(store.tasks, base, pages, Marked, Written, Flushed);
    ghost var stored := store.arena.cells;
    ok := FlushAllPayloads(store, pages, base);
    AtIsUnderWay(store.tasks, base, pages, if ok then |pages| else 0, Written, Flushed);
    if !ok || fails(StepFlushed) { return false; }
    AtShift(store.tasks, base, pages, Written, Flushed, Rehashed);
    StoredStays(stored, store.arena.cells, pages);
  }

  /** The second half: digests compared, then every sidecar sealed. */
  method SealBatch(store: Store, pages: seq<Page>, ghost base: seq<Task>, fails: InsertStep -> bool) returns (ok: bool)
    requires store.Valid() && Acceptable(store.cfg.pageSize, |base|, pages)
             && At(store.tasks, base, pages, 0, Flushed, Rehashed)
    requires |store.arena.cells| == |base| && Stored(store.arena.cells, pages, |pages|)
    modifies store, store.arena
    ensures store.Valid() && store.origin == old(store.origin) && old(store.log) <= store.log
            && UnderWay(store.tasks, base, pages)
    ensures store.Failures() >= old(store.Failures())
    ensures ok <==> store.Failures() == old(store.Failures()) && AllMatch(store.cfg, pages) && !fails(StepRehashed)
    ensures ok ==> At(store.tasks, base, pages, |pages|, SealWritten, Sealed)
    ensures SamePayloads(store.arena.cells, old(store.arena.cells))
  {
    ghost var n;
    ok, n := RehashAll(store, pages, base);
    AtIsUnderWay(store.tasks, base, pages, n, Flushed, Rehashed);
    if !ok || fails(StepRehashed) { return false; }
    AtShift(store.tasks, base, pages, Flushed, Rehashed, SealWritten);
    ok, n := WriteSides(store, pages, base, Rehashed);
    AtIsUnderWay(store.tasks, base, pages, n, Rehashed, SealWritten);
    if !ok { return; }
    AtShift(store.tasks, base, pages, Rehashed, SealWritten, Sealed);
    ok := FlushAllSides(store, pages, base, SealWritten);
    AtIsUnderWay(store.tasks, base, pages, if ok then |pages| else 0, SealWritten, Sealed);
  }

  /** Every page of the batch is resident with its bytes and their digest. */
  ghost predicate AllResident(cfg: Config, w: World, pages: seq<Page>) {
    && Shaped(w) && InRange(pages, |w.rows|) && AllMatch(cfg, pages)
    && forall m :: 0 <= m < |pages| ==>
         var p := pages[m];
         w.rows[p.rec.slot] == Row(p.rec.generation, Resident, p.rec.hash, p.rec.length)
             && p.bytes <= w.cells[p.rec.slot].payload
  }

  lemma CommittedIsResident(cfg: Config, w: World, out: World, base: seq<Task>, pages: seq<Page>)
    requires Inv(cfg, w) && At(w.tasks, base, pages, |pages|, SealWritten, Sealed) && |base| == |w.tasks|
    requires Committed(w, out, pages) && AllMatch(cfg, pages) && Stored(w.cells, pages, |pages|)
    ensures AllResident(cfg, out, pages)
  {
    forall m | 0 <= m < |pages|
      ensures out.rows[pages[m].rec.slot]
              == Row(pages[m].rec.generation, Resident, pages[m].rec.hash, pages[m].rec.length)
    {
      var i := pages[m].rec.slot;
      assert SlotOk(cfg, i, w.rows[i], w.cells[i], w.tasks[i]);
    }
  }

  /** Hooks, digests and the commit raise no objection. */
  ghost predicate Unhindered(cfg: Config, rows: seq<Row>, pages: seq<Page>, fails: InsertStep -> bool) {
    AllMatch(cfg, pages) && (forall step :: !fails(step)) && CommitBatchSpec(rows, Records(pages)).result.Ok?
  }

  /** Writes, seals and commits the batch; the tasks stay under way when it fails before the commit. */
  method TryBatch(store: Store, pages: seq<Page>, ghost base: seq<Task>, fails: InsertStep -> bool)
    returns (result: Result<seq<Record>>)
    requires store.Valid() && Acceptable(store.cfg.pageSize, |base|, pages)
             && At(store.tasks, base, pages, 0, Claim, MarkWritten)
    modifies store, store.arena, store.db
    ensures store.Valid() && store.origin == old(store.origin) && old(store.log) <= store.log
            && |store.db.rows| == |old(store.db.rows)|
    ensures result.Err? ==> UnderWay(store.tasks, base, pages) && store.db.rows == old(store.db.rows)
    ensures result.Ok? ==>
              && result.value == AsResident(Records(pages)) && AllResident(store.cfg, store.Now(), pages)
              && forall m :: 0 <= m < |pages| ==> store.tasks[pages[m].rec.slot].Idle?
    ensures result.Ok? ==> |store.tasks| == |base| && forall j :: 0 <= j < |base| && !Has(pages, j) ==>
              store.tasks[j] == base[j] && store.db.rows[j] == old(store.db.rows)[j]
    ensures store.Failures() >= old(store.Failures())
    ensures store.Failures() == old(store.Failures()) && Unhindered(store.cfg, old(store.db.rows), pages, fails) ==>
              result.Ok?
  {
    var ok := PrepareBatch(store, pages, base, fails);
    if !ok { return Err; }
    ghost var w := store.Now();
    store.NowIsSound();
    result := CommitPages(store, pages, base);
    if result.Ok? { CommittedIsResident(store.cfg, w, store.Now(), base, pages); }
  }

  /** Both halves: every page is stored and sealed under its digest, or the batch has got stuck somewhere. */
  method PrepareBatch(store: Store, pages: seq<Page>, ghost base: seq<Task>, fails: InsertStep -> bool)
    returns (ok: bool)
    requires store.Valid() && Acceptable(store.cfg.pageSize, |base|, pages)
             && At(store.tasks, base, pages, 0, Claim, MarkWritten)
    modifies store, store.arena
    ensures store.Valid() && store.origin == old(store.origin) && old(store.log) <= store.log
            && UnderWay(store.tasks, base, pages)
    ensures store.Failures() >= old(store.Failures())
    ensures store.Failures() == old(store.Failures()) && AllMatch(store.cfg, pages) && (forall step :: !fails(step)) ==>
              ok
    ensures ok ==> At(store.tasks, base, pages, |pages|, SealWritten, Sealed) && AllMatch(store.cfg, pages)
    ensures ok ==> |store.arena.cells| == |base| && Stored(store.arena.cells, pages, |pages|)
  {
    ok := WriteBatch(store, pages, base, fails);
    if !ok { return; }
    ghost var stored := store.arena.cells;
    ok := SealBatch(store, pages, base, fails);
    StoredStays(stored, store.arena.cells, pages);
  }

  lemma StoredStays(a: seq<Cell>, b: seq<Cell>, pages: seq<Page>)
    requires SamePayloads(b, a) && InRange(pages, |a|) && Stored(a, pages, |pages|)
    ensures Stored(b, pages, |pages|)
  {
  }

  /**
   insert_reserved_pages. All pages end resident with their bytes, or none does: then every
   reservation was given up, unless the arguments were refused and nothing was touched.
   */
  method InsertReservedPages(store: Store, pages: seq<Page>, fails: InsertStep -> bool)
    returns (result: Result<seq<Record>>)
    requires store.Valid()
    requires Acceptable(store.cfg.pageSize, |store.db.rows|, pages) ==>
               forall m :: 0 <= m < |pages| ==>
                   store.tasks[pages[m].rec.slot] == Inserting(pages[m].rec, pages[m].bytes, Claim)
    modifies store, store.arena, store.db
    ensures store.Valid() && store.origin == old(store.origin) && old(store.log) <= store.log
    ensures !Acceptable(store.cfg.pageSize, |old(store.db.rows)|, pages) ==>
              result.Err? && store.Now() == old(store.Now())
    ensures result.Ok? ==> result.value == AsResident(Records(pages)) && AllResident(store.cfg, store.Now(), pages)
    ensures Acceptable(store.cfg.pageSize, |old(store.db.rows)|, pages) && result.Err? ==>
              || (fails(StepMetadataCommitted) && AllResident(store.cfg, store.Now(), pages))
              || (|store.db.rows| == |old(store.db.rows)| && forall m :: 0 <= m < |pages| ==>
                  GivenUp(store.db.rows[pages[m].rec.slot]))
    ensures Acceptable(store.cfg.pageSize, |old(store.db.rows)|, pages) ==>
              |store.db.rows| == |old(store.db.rows)| && forall m :: 0 <= m < |pages| ==>
                  store.tasks[pages[m].rec.slot].Idle?
    ensures |store.db.rows| == |old(store.db.rows)|
            && forall j :: 0 <= j < |store.db.rows| && !Has(pages, j) ==> store.db.rows[j] == old(store.db.rows)[j]
    ensures store.Failures() == old(store.Failures()) && Acceptable(store.cfg.pageSize, |old(store.db.rows)|, pages) ==>
              Unhindered(store.cfg, old(store.db.rows), pages, fails) ==> result.Ok?
  {
    var accepted := CheckBatch(store.cfg.pageSize, |store.db.rows|, pages);
    if !accepted { return Err; }
    ghost var base := store.tasks;
    result := TryBatch(store, pages, base, fails);
    if result.Ok? {
      if fails(StepMetadataCommitted) { return Err; }
      return;
    }
    DropAll(store, pages);
  }
}
