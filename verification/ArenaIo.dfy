/**
 Slot I/O on the arena file (crates/mirage-cache/src/shard.rs, coalesced_read.rs and the run
 builder of insert.rs): one write for many pages, one read across many, and the aligned
 unbuffered read, each byte for byte the same as going slot by slot.
 */
module ArenaIo {
  import opened Basics
  import opened Sequences

  const ARENA_HEADER_BYTES: nat := 4096
  const ALIGN: nat := 4096
  const ZERO_CHUNK: nat := 65536
  const MIN_PAGE: nat := 65536
  const MAX_PAGE: nat := 16777216

  datatype Layout = Layout(pageSize: nat, slotCount: nat)

  predicate PowerOfTwo(n: nat) {
    n == 1 || (n > 1 && n % 2 == 0 && PowerOfTwo(n / 2))
  }

  /** CacheLayout::validate; the length checks never fail within these bounds (see ShardFits). */
  predicate Validated(l: Layout) {
    MIN_PAGE <= l.pageSize <= MAX_PAGE && PowerOfTwo(l.pageSize) && 0 < l.slotCount <= U32_MAX
  }

  /** CacheLayout::slot_offset, for a slot below the slot count. */
  function Offset(l: Layout, slot: nat): nat {
    ARENA_HEADER_BYTES + slot * l.pageSize
  }

  function ShardBytes(l: Layout): nat {
    Offset(l, l.slotCount)
  }

  lemma OffsetStep(l: Layout, slot: nat, n: nat)
    ensures Offset(l, slot + n) == Offset(l, slot) + n * l.pageSize
  {
  }

  /** Slot windows do not overlap and lie inside the file. */
  lemma Windows(l: Layout, slot: nat, other: nat)
    requires slot < other
    ensures Offset(l, slot) + l.pageSize <= Offset(l, other)
  {
    OffsetStep(l, slot, other - slot);
    var gap := other - slot;
    assert gap * l.pageSize >= l.pageSize by { MulGrows(gap, l.pageSize); }
  }

  lemma MulGrows(a: nat, b: nat)
    requires a >= 1
    ensures a * b >= b
  {
  }

  lemma Half(n: nat) returns (h: nat)
    requires PowerOfTwo(n) && n > 1
    ensures n == 2 * h && PowerOfTwo(h)
  {
    h := n / 2;
  }

  lemma SixteenthPart(n: nat) returns (h: nat)
    requires PowerOfTwo(n) && n >= 16
    ensures n == 16 * h && PowerOfTwo(h)
  {
    h := Half(n);
    h := Half(h);
    h := Half(h);
    h := Half(h);
  }

  lemma WholeSectors(n: nat) returns (h: nat)
    requires PowerOfTwo(n) && n >= ALIGN
    ensures n == ALIGN * h
  {
    var a := SixteenthPart(n);
    var b := SixteenthPart(a);
    h := SixteenthPart(b);
  }

  /** A validated page is a whole number of sectors, so every slot starts and ends on one. */
  lemma SlotsAreAligned(l: Layout, slot: nat)
    requires Validated(l)
    ensures l.pageSize % ALIGN == 0 && Offset(l, slot) % ALIGN == 0
  {
    var k := WholeSectors(l.pageSize);
    assert slot * l.pageSize == ALIGN * (slot * k);
  }

  // ----- Positioned writes -----

  function WriteAt(file: Bytes, at: nat, bytes: Bytes): (r: Bytes)
    requires at + |bytes| <= |file|
    ensures |r| == |file|
  {
    file[..at] + bytes + file[at + |bytes|..]
  }

  lemma WriteAtPoint(file: Bytes, at: nat, bytes: Bytes, k: nat)
    requires at + |bytes| <= |file| && k < |file|
    ensures WriteAt(file, at, bytes)[k] == if at <= k < at + |bytes| then bytes[k - at] else file[k]
  {
  }

  /** Adjacent writes merge. */
  lemma WriteJoin(file: Bytes, at: nat, a: Bytes, b: Bytes)
    requires at + |a| + |b| <= |file|
    ensures WriteAt(WriteAt(file, at, a), at + |a|, b) == WriteAt(file, at, a + b)
  {
    assert (a + b)[..|a|] == a;
  }

  /** Separate writes commute. */
  lemma WriteSwap(file: Bytes, p: nat, a: Bytes, q: nat, b: Bytes)
    requires p + |a| <= q && q + |b| <= |file|
    ensures WriteAt(WriteAt(file, p, a), q, b) == WriteAt(WriteAt(file, q, b), p, a)
  {
    var x, y := WriteAt(WriteAt(file, p, a), q, b), WriteAt(WriteAt(file, q, b), p, a);
    forall k | 0 <= k < |file|
      ensures x[k] == y[k]
    {
      WriteAtPoint(WriteAt(file, p, a), q, b, k);
      WriteAtPoint(file, p, a, k);
      WriteAtPoint(WriteAt(file, q, b), p, a, k);
      WriteAtPoint(file, q, b, k);
    }
  }

  // ----- Pages -----

  datatype Page = Page(slot: nat, bytes: Bytes)

  /** What write_slot accepts. */
  predicate Writable(l: Layout, p: Page) {
    0 < |p.bytes| <= l.pageSize && p.slot < l.slotCount
  }

  predicate AllWritable(l: Layout, pages: seq<Page>) {
    forall i :: 0 <= i < |pages| ==> Writable(l, pages[i])
  }

  predicate DistinctSlots(pages: seq<Page>) {
    forall i, j :: 0 <= i < j < |pages| ==> pages[i].slot != pages[j].slot
  }

  lemma PageFits(l: Layout, p: Page)
    requires Writable(l, p)
    ensures Offset(l, p.slot) + |p.bytes| <= ShardBytes(l)
  {
    Windows(l, p.slot, l.slotCount);
  }

  function WritePage(l: Layout, file: Bytes, p: Page): (r: Bytes)
    requires |file| == ShardBytes(l) && Writable(l, p)
    ensures |r| == |file|
  {
    PageFits(l, p);
    WriteAt(file, Offset(l, p.slot), p.bytes)
  }

  /** The reference: every page written on its own, in the given order. */
  function WriteAll(l: Layout, file: Bytes, pages: seq<Page>): (r: Bytes)
    requires |file| == ShardBytes(l) && AllWritable(l, pages)
    ensures |r| == |file|
    decreases |pages|
  {
    if |pages| == 0 then file else WriteAll(l, WritePage(l, file, pages[0]), pages[1..])
  }

  lemma {:induction false} WriteAllConcat(l: Layout, file: Bytes, a: seq<Page>, b: seq<Page>)
    requires |file| == ShardBytes(l) && AllWritable(l, a) && AllWritable(l, b) && AllWritable(l, a + b)
    ensures WriteAll(l, file, a + b) == WriteAll(l, WriteAll(l, file, a), b)
    decreases |a|
  {
    if |a| == 0 {
      assert a + b == b;
    } else {
      assert (a + b)[1..] == a[1..] + b;
      WriteAllConcat(l, WritePage(l, file, a[0]), a[1..], b);
    }
  }

  lemma PagesCommute(l: Layout, file: Bytes, p: Page, q: Page)
    requires |file| == ShardBytes(l) && Writable(l, p) && Writable(l, q) && p.slot != q.slot
    ensures WritePage(l, WritePage(l, file, p), q) == WritePage(l, WritePage(l, file, q), p)
  {
    PageFits(l, p);
    PageFits(l, q);
    if p.slot < q.slot {
      Windows(l, p.slot, q.slot);
      WriteSwap(file, Offset(l, p.slot), p.bytes, Offset(l, q.slot), q.bytes);
    } else {
      Windows(l, q.slot, p.slot);
      WriteSwap(file, Offset(l, q.slot), q.bytes, Offset(l, p.slot), p.bytes);
    }
  }

  /** A page can be written last instead of first. */
  lemma {:induction false} WriteLast(l: Layout, file: Bytes, p: Page, rest: seq<Page>)
    requires |file| == ShardBytes(l) && Writable(l, p) && AllWritable(l, rest)
    requires forall i :: 0 <= i < |rest| ==> rest[i].slot != p.slot
    ensures WriteAll(l, WritePage(l, file, p), rest) == WritePage(l, WriteAll(l, file, rest), p)
    decreases |rest|
  {
    if |rest| > 0 {
      PagesCommute(l, file, p, rest[0]);
      WriteLast(l, WritePage(l, file, rest[0]), p, rest[1..]);
    }
  }

  lemma MoveFirst(l: Layout, file: Bytes, pages: seq<Page>, k: nat)
    requires |file| == ShardBytes(l) && AllWritable(l, pages) && DistinctSlots(pages) && k < |pages|
    ensures WriteAll(l, file, pages) == WriteAll(l, WritePage(l, file, pages[k]), RemoveAt(pages, k))
  {
    var a, p, b := pages[..k], pages[k], pages[k + 1..];
    assert pages == a + pages[k..] && pages[k..][0] == p && pages[k..][1..] == b;
    WriteAllConcat(l, file, a, pages[k..]);
    WriteLast(l, file, p, a);
    WriteAllConcat(l, WritePage(l, file, p), a, b);
  }

  lemma DropKeeps(l: Layout, b: seq<Page>, k: nat)
    requires AllWritable(l, b) && DistinctSlots(b) && k < |b|
    ensures AllWritable(l, RemoveAt(b, k)) && DistinctSlots(RemoveAt(b, k))
  {
  }

  /** With distinct slots the order of the writes does not matter. */
  lemma {:induction false} AnyOrder(l: Layout, file: Bytes, a: seq<Page>, b: seq<Page>)
    requires |file| == ShardBytes(l) && AllWritable(l, a) && AllWritable(l, b) && DistinctSlots(b)
    requires multiset(a) == multiset(b)
    ensures WriteAll(l, file, a) == WriteAll(l, file, b)
    decreases |a|
  {
    if |a| == 0 {
      assert |b| == |multiset(b)| == 0;
    } else {
      var k := Match(a, 0, b);
      assert RemoveAt(a, 0) == a[1..];
      MoveFirst(l, file, b, k);
      DropKeeps(l, b, k);
      AnyOrder(l, WritePage(l, file, a[0]), a[1..], RemoveAt(b, k));
    }
  }

  /** Every page can be read back where it was put. */
  lemma ReadBack(l: Layout, file: Bytes, pages: seq<Page>, k: nat)
    requires |file| == ShardBytes(l) && AllWritable(l, pages) && DistinctSlots(pages) && k < |pages|
    ensures Offset(l, pages[k].slot) + |pages[k].bytes| <= |file|
    ensures WriteAll(l, file, pages)[Offset(l, pages[k].slot)..Offset(l, pages[k].slot) + |pages[k].bytes|]
            == pages[k].bytes
  {
    PageFits(l, pages[k]);
    MoveFirst(l, file, pages, k);
    WriteLast(l, file, pages[k], RemoveAt(pages, k));
  }

  // ----- Runs -----

  predicate Sorted(pages: seq<Page>) {
    forall i, j :: 0 <= i < j < |pages| ==> pages[i].slot <= pages[j].slot
  }

  function InsertBySlot(p: Page, pages: seq<Page>): seq<Page> {
    if |pages| == 0 || p.slot <= pages[0].slot then [p] + pages else [pages[0]] + InsertBySlot(p, pages[1..])
  }

  /** The stable sort by slot index. */
  function SortBySlot(pages: seq<Page>): seq<Page> {
    if |pages| == 0 then [] else InsertBySlot(pages[0], SortBySlot(pages[1..]))
  }

  lemma {:induction false} InsertContents(p: Page, pages: seq<Page>)
    ensures multiset(InsertBySlot(p, pages)) == multiset(pages) + multiset{p}
  {
    if |pages| > 0 && p.slot > pages[0].slot {
      InsertContents(p, pages[1..]);
      assert pages == [pages[0]] + pages[1..];
    }
  }

  lemma {:induction false} InsertSorted(p: Page, pages: seq<Page>)
    requires Sorted(pages)
    ensures Sorted(InsertBySlot(p, pages))
    ensures forall k :: 0 <= k < |InsertBySlot(p, pages)| ==>
              InsertBySlot(p, pages)[k] == p || InsertBySlot(p, pages)[k] in pages
  {
    if |pages| > 0 && p.slot > pages[0].slot {
      InsertSorted(p, pages[1..]);
    }
  }

  lemma {:induction false} SortSorts(pages: seq<Page>)
    ensures Sorted(SortBySlot(pages)) && multiset(SortBySlot(pages)) == multiset(pages)
  {
    if |pages| > 0 {
      SortSorts(pages[1..]);
      InsertSorted(pages[0], SortBySlot(pages[1..]));
      InsertContents(pages[0], SortBySlot(pages[1..]));
      assert pages == [pages[0]] + pages[1..];
    }
  }

  function Flatten(pages: seq<Page>): Bytes {
    if |pages| == 0 then [] else pages[0].bytes + Flatten(pages[1..])
  }

  /** Consecutive slots, every page but the last filling its slot. */
  predicate IsRun(l: Layout, run: seq<Page>) {
    && |run| > 0
    && (forall i :: 0 <= i < |run| ==> run[i].slot == run[0].slot + i)
    && forall i :: 0 <= i < |run| - 1 ==> |run[i].bytes| == l.pageSize
  }

  lemma RunTail(l: Layout, run: seq<Page>)
    requires IsRun(l, run) && |run| > 1
    ensures IsRun(l, run[1..]) && run[1].slot == run[0].slot + 1 && |run[0].bytes| == l.pageSize
  {
  }

  lemma {:induction false} RunLength(l: Layout, run: seq<Page>)
    requires IsRun(l, run)
    ensures |Flatten(run)| == (|run| - 1) * l.pageSize + |run[|run| - 1].bytes|
    decreases |run|
  {
    if |run| > 1 {
      RunTail(l, run);
      RunLength(l, run[1..]);
      assert (|run| - 1) * l.pageSize == (|run| - 2) * l.pageSize + l.pageSize;
    } else {
      assert run[1..] == [];
    }
  }

  /** Writing the pages of a run one by one is writing their bytes at once. */
  lemma {:induction false} RunIsOneWrite(l: Layout, file: Bytes, run: seq<Page>)
    requires |file| == ShardBytes(l) && IsRun(l, run) && AllWritable(l, run)
    ensures Offset(l, run[0].slot) + |Flatten(run)| <= |file|
    ensures WriteAll(l, file, run) == WriteAt(file, Offset(l, run[0].slot), Flatten(run))
    decreases |run|
  {
    PageFits(l, run[0]);
    if |run| == 1 {
      assert run[1..] == [] && Flatten(run) == run[0].bytes;
    } else {
      RunTail(l, run);
      RunIsOneWrite(l, WritePage(l, file, run[0]), run[1..]);
      OffsetStep(l, run[0].slot, 1);
      WriteJoin(file, Offset(l, run[0].slot), run[0].bytes, Flatten(run[1..]));
    }
  }

  /** The checks of write_slots_contiguous. */
  predicate Accepts(l: Layout, first: nat, count: nat, length: nat) {
    && count > 0 && length > 0
    && first + (count - 1) <= U32_MAX && first + (count - 1) < l.slotCount
    && (count - 1) * l.pageSize < length <= (count - 1) * l.pageSize + l.pageSize
  }

  lemma AcceptedRunIsWritable(l: Layout, run: seq<Page>)
    requires Validated(l) && IsRun(l, run) && Accepts(l, run[0].slot, |run|, |Flatten(run)|)
    ensures AllWritable(l, run)
  {
    RunLength(l, run);
  }

  lemma WritableRunIsAccepted(l: Layout, run: seq<Page>)
    requires Validated(l) && IsRun(l, run) && AllWritable(l, run)
    ensures |run| <= U32_MAX && Accepts(l, run[0].slot, |run|, |Flatten(run)|)
  {
    RunLength(l, run);
    assert Writable(l, run[|run| - 1]) && run[|run| - 1].slot == run[0].slot + (|run| - 1);
    assert (|run| - 1) * l.pageSize >= 0;
  }

  /** A run is accepted exactly when each of its pages would be on its own. */
  lemma RunAccepted(l: Layout, run: seq<Page>)
    requires Validated(l) && IsRun(l, run) && run[|run| - 1].slot <= U32_MAX
    ensures AllWritable(l, run) <==> Accepts(l, run[0].slot, AsU32(|run|), |Flatten(run)|)
  {
    assert run[|run| - 1].slot == run[0].slot + (|run| - 1);
    if AllWritable(l, run) { WritableRunIsAccepted(l, run); }
    if |run| <= U32_MAX && Accepts(l, run[0].slot, |run|, |Flatten(run)|) { AcceptedRunIsWritable(l, run); }
  }

  /** The cast `as u32`. */
  function AsU32(n: nat): nat {
    n % (U32_MAX + 1)
  }

  // ----- Reads -----

  /** A live lease on a resident page of some arena. */
  datatype Guard = Guard(arena: int, slot: nat, length: nat)

  predicate OnSlot(l: Layout, g: Guard) {
    g.slot < l.slotCount && 0 < g.length <= l.pageSize
  }

  lemma GuardFits(l: Layout, g: Guard)
    requires OnSlot(l, g)
    ensures Offset(l, g.slot) + g.length <= Offset(l, g.slot) + l.pageSize <= ShardBytes(l)
  {
    Windows(l, g.slot, l.slotCount);
  }

  function PageOf(l: Layout, file: Bytes, g: Guard): Bytes
    requires |file| == ShardBytes(l) && OnSlot(l, g)
  {
    GuardFits(l, g);
    file[Offset(l, g.slot)..Offset(l, g.slot) + g.length]
  }

  /** The pages of the guards, one after the other. */
  function Pages(l: Layout, file: Bytes, guards: seq<Guard>): Bytes
    requires |file| == ShardBytes(l) && forall i :: 0 <= i < |guards| ==> OnSlot(l, guards[i])
  {
    if |guards| == 0 then [] else PageOf(l, file, guards[0]) + Pages(l, file, guards[1..])
  }

  predicate Adjacent(l: Layout, guards: seq<Guard>) {
    && |guards| > 0
    && (forall i :: 0 <= i < |guards| ==> guards[i].slot == guards[0].slot + i)
    && forall i :: 0 <= i < |guards| - 1 ==> guards[i].length == l.pageSize
  }

  function WindowEnd(l: Layout, guards: seq<Guard>): nat
    requires |guards| > 0
  {
    (|guards| - 1) * l.pageSize + guards[|guards| - 1].length
  }

  /** Adjacent full pages are one stretch of the file. */
  lemma {:induction false} PagesAreOneSlice(l: Layout, file: Bytes, guards: seq<Guard>)
    requires |file| == ShardBytes(l) && Adjacent(l, guards) && forall i :: 0 <= i < |guards| ==> OnSlot(l, guards[i])
    ensures Offset(l, guards[0].slot) + WindowEnd(l, guards) <= |file|
    ensures Pages(l, file, guards) == file[Offset(l, guards[0].slot)..Offset(l, guards[0].slot) + WindowEnd(l, guards)]
    decreases |guards|
  {
    GuardFits(l, guards[0]);
    var at := Offset(l, guards[0].slot);
    if |guards| == 1 {
      assert guards[1..] == [];
    } else {
      PagesAreOneSlice(l, file, guards[1..]);
      OffsetStep(l, guards[0].slot, 1);
      var rest := WindowEnd(l, guards[1..]);
      assert WindowEnd(l, guards) == l.pageSize + rest by { Split(|guards| - 1, l.pageSize); }
      assert file[at..at + l.pageSize] + file[at + l.pageSize..at + l.pageSize + rest]
             == file[at..at + l.pageSize + rest];
    }
  }

  lemma Split(n: nat, size: nat)
    requires n > 0
    ensures n * size == (n - 1) * size + size
  {
  }

  function AlignDown(n: nat): (r: nat)
    ensures r % ALIGN == 0 && r <= n < r + ALIGN
  {
    n - n % ALIGN
  }

  /** The sector-aligned range around a wanted one, clamped to the slot window. */
  function AlignedRange(offset: nat, length: nat, window: nat): (r: (nat, nat))
    requires offset + length <= window && window % ALIGN == 0
    ensures r.0 % ALIGN == 0 && r.1 % ALIGN == 0 && r.0 <= offset && offset + length <= r.1 <= window
  {
    (AlignDown(offset), Min(AlignDown(offset + length + (ALIGN - 1)), window))
  }

  lemma AlignedSum(a: nat, b: nat)
    requires a % ALIGN == 0 && b % ALIGN == 0
    ensures (a + b) % ALIGN == 0
  {
  }

  lemma WindowIsAligned(l: Layout, slot: nat, count: nat)
    requires Validated(l) && count > 0 && slot + (count - 1) < l.slotCount
    ensures (count * l.pageSize) % ALIGN == 0 && Offset(l, slot) % ALIGN == 0
    ensures Offset(l, slot) + count * l.pageSize <= ShardBytes(l)
  {
    SlotsAreAligned(l, slot);
    SlotsAreAligned(l, count);
    OffsetStep(l, slot, count);
    if slot + count < l.slotCount { Windows(l, slot + count, l.slotCount); }
  }

  // ----- The shard -----

  class Shard {
    const l: Layout
    const arena: int
    const unbuffered: bool
    var file: Bytes

    ghost predicate Valid()
      reads this
    {
      Validated(l) && |file| == ShardBytes(l)
    }

    constructor (l: Layout, arena: int, unbuffered: bool)
      requires Validated(l)
      ensures Valid() && this.l == l && this.arena == arena && this.unbuffered == unbuffered
              && file == Zeros(ShardBytes(l))
    {
      this.l, this.arena, this.unbuffered := l, arena, unbuffered;
      file := Zeros(ShardBytes(l));
    }

    method WriteSlot(slot: nat, bytes: Bytes) returns (ok: bool)
      requires Valid()
      modifies this`file
      ensures Valid() && ok == Writable(l, Page(slot, bytes))
      ensures file == if ok then WritePage(l, old(file), Page(slot, bytes)) else old(file)
    {
      if |bytes| == 0 || |bytes| > l.pageSize || slot >= l.slotCount { return false; }
      PageFits(l, Page(slot, bytes));
      file := WriteAt(file, Offset(l, slot), bytes);
      ok := true;
    }

    method WriteSlotsContiguous(first: nat, count: nat, bytes: Bytes) returns (ok: bool)
      requires Valid()
      modifies this`file
      ensures Valid() && ok == Accepts(l, first, count, |bytes|)
      ensures ok ==> Offset(l, first) + |bytes| <= |file| && file == WriteAt(old(file), Offset(l, first), bytes)
      ensures !ok ==> file == old(file)
    {
      if count == 0 || |bytes| == 0 || first + (count - 1) > U32_MAX
          || first + (count - 1) >= l.slotCount { return false; }
      var fullPrefix := (count - 1) * l.pageSize;
      if |bytes| <= fullPrefix || |bytes| > fullPrefix + l.pageSize { return false; }
      WindowIsAligned(l, first, count);
      Split(count, l.pageSize);
      file := WriteAt(file, Offset(l, first), bytes);
      ok := true;
    }

    /** How far the run that starts at `cursor` reaches. */
    method FindRunEnd(ordered: seq<Page>, cursor: nat) returns (end: nat)
      requires cursor < |ordered| && forall i :: 0 <= i < |ordered| ==> ordered[i].slot <= U32_MAX
      ensures cursor < end <= |ordered| && IsRun(l, ordered[cursor..end])
      ensures end < |ordered| ==>
                |ordered[end - 1].bytes| != l.pageSize || ordered[end].slot != ordered[end - 1].slot + 1
    {
      end := cursor + 1;
      while end < |ordered| && |ordered[end - 1].bytes| == l.pageSize
            && ordered[end - 1].slot < U32_MAX && ordered[end].slot == ordered[end - 1].slot + 1
        invariant cursor < end <= |ordered|
        invariant forall i :: cursor <= i < end ==> ordered[i].slot == ordered[cursor].slot + (i - cursor)
        invariant forall i :: cursor <= i < end - 1 ==> |ordered[i].bytes| == l.pageSize
      {
        end := end + 1;
      }
    }

    method WriteRun(run: seq<Page>) returns (ok: bool)
      requires Valid() && IsRun(l, run) && forall i :: 0 <= i < |run| ==> run[i].slot <= U32_MAX
      modifies this`file
      ensures Valid() && ok == AllWritable(l, run)
      ensures ok ==> file == WriteAll(l, old(file), run)
    {
      if |run| == 1 {
        assert run[0] == Page(run[0].slot, run[0].bytes) && run[1..] == [];
        ok := WriteSlot(run[0].slot, run[0].bytes);
      } else {
        RunAccepted(l, run);
        ok := WriteSlotsContiguous(run[0].slot, AsU32(|run|), Flatten(run));
        if ok { RunIsOneWrite(l, old(file), run); }
      }
    }

    /**
     The batch writer: it fails exactly when some page could not be written on its own, and
     otherwise leaves the bytes that writing each page separately would.
     */
    method WriteContiguousRuns(pages: seq<Page>) returns (ok: bool)
      requires Valid() && forall i :: 0 <= i < |pages| ==> pages[i].slot <= U32_MAX
      modifies this`file
      ensures Valid() && ok == AllWritable(l, pages)
      ensures ok && DistinctSlots(pages) ==> file == WriteAll(l, old(file), pages)
    {
      var ordered := SortBySlot(pages);
      SortSorts(pages);
      SamePages(l, pages, ordered);
      var cursor := 0;
      while cursor < |ordered|
        invariant cursor <= |ordered| && Valid()
        invariant AllWritable(l, ordered[..cursor]) && file == WriteAll(l, old(file), ordered[..cursor])
      {
        var end := FindRunEnd(ordered, cursor);
        var run := ordered[cursor..end];
        assert ordered[..end] == ordered[..cursor] + run;
        var written := WriteRun(run);
        if !written { return false; }
        WriteAllConcat(l, old(file), ordered[..cursor], run);
        cursor := end;
      }
      assert ordered[..cursor] == ordered;
      if DistinctSlots(pages) { AnyOrder(l, old(file), ordered, pages); }
      ok := true;
    }

    /** Fills `output` from the file. */
    method ReadExact(at: nat, output: array<byte>)
      requires at + output.Length <= |file|
      modifies output
      ensures output[..] == file[at..at + output.Length]
    {
      var i := 0;
      while i < output.Length
        invariant i <= output.Length && output[..i] == file[at..at + i]
      {
        output[i] := file[at + i];
        i := i + 1;
      }
    }

    /** The sector-aligned read; `from` and `to` bound the file range that is touched. */
    method ReadUnbuffered(slot: nat, window: nat, offset: nat, output: array<byte>, pointerAligned: bool)
      returns (ghost from: nat, ghost to: nat)
      requires Valid() && slot < l.slotCount && offset + output.Length <= window
      requires window % ALIGN == 0 && Offset(l, slot) + window <= |file|
      modifies output
      ensures output[..] == file[Offset(l, slot) + offset..Offset(l, slot) + offset + output.Length]
      ensures from % ALIGN == 0 && to % ALIGN == 0 && Offset(l, slot) <= from <= to <= Offset(l, slot) + window
    {
      SlotsAreAligned(l, slot);
      var base := Offset(l, slot);
      from, to := base, base;
      if output.Length == 0 { return; }
      if offset % ALIGN == 0 && output.Length % ALIGN == 0 && pointerAligned {
        from, to := base + offset, base + offset + output.Length;
        AlignedSum(base, offset);
        AlignedSum(base + offset, output.Length);
        ReadExact(base + offset, output);
        return;
      }
      var range := AlignedRange(offset, output.Length, window);
      from, to := base + range.0, base + range.1;
      AlignedSum(base, range.0);
      AlignedSum(base, range.1);
      ReadThrough(base + range.0, base + range.1, base + offset, output);
    }

    /** Reads a range into scratch space and copies the wanted part out of it. */
    method ReadThrough(from: nat, to: nat, at: nat, output: array<byte>)
      requires from <= at && at + output.Length <= to <= |file|
      modifies output
      ensures output[..] == file[at..at + output.Length]
    {
      var scratch := new byte[to - from];
      ReadExact(from, scratch);
      var bytes := scratch[..];
      var rel := at - from;
      var i := 0;
      while i < output.Length
        invariant i <= output.Length && forall k :: 0 <= k < i ==> output[k] == file[at + k]
      {
        assert bytes[rel + i] == file[at + i];
        output[i] := bytes[rel + i];
        i := i + 1;
      }
    }

    method ReadSlot(slot: nat, logicalLength: nat, offset: nat, output: array<byte>, pointerAligned: bool)
      returns (ok: bool)
      requires Valid()
      modifies output
      ensures ok == (offset + output.Length <= logicalLength <= l.pageSize && slot < l.slotCount)
      ensures ok ==> Offset(l, slot) + offset + output.Length <= |file|
                     && output[..] == file[Offset(l, slot) + offset..Offset(l, slot) + offset + output.Length]
      ensures !ok ==> output[..] == old(output[..])
    {
      if offset + output.Length > logicalLength || logicalLength > l.pageSize || slot >= l.slotCount { return false; }
      WindowIsAligned(l, slot, 1);
      if unbuffered {
        ghost var from, to := ReadUnbuffered(slot, l.pageSize, offset, output, pointerAligned);
      } else {
        ReadExact(Offset(l, slot) + offset, output);
      }
      ok := true;
    }

    method ReadSlotsContiguous(first: nat, count: nat, offset: nat, output: array<byte>, pointerAligned: bool)
      returns (ok: bool)
      requires Valid()
      modifies output
      ensures ok == (count > 0 && first + (count - 1) < l.slotCount && offset + output.Length <= count * l.pageSize)
      ensures ok ==> Offset(l, first) + offset + output.Length <= |file|
                     && output[..] == file[Offset(l, first) + offset..Offset(l, first) + offset + output.Length]
      ensures !ok ==> output[..] == old(output[..])
    {
      if count == 0 || first + (count - 1) > U32_MAX || first + (count - 1) >= l.slotCount { return false; }
      var window := count * l.pageSize;
      if offset + output.Length > window { return false; }
      WindowIsAligned(l, first, count);
      if unbuffered {
        ghost var from, to := ReadUnbuffered(first, window, offset, output, pointerAligned);
      } else {
        ReadExact(Offset(l, first) + offset, output);
      }
      ok := true;
    }

    /** The portable deallocation: a range is zeroed in 64 KiB pieces. */
    method Zero(start: nat, length: nat)
      requires start + length <= |file|
      modifies this`file
      ensures file == WriteAt(old(file), start, Zeros(length))
    {
      var remaining, cursor := length, start;
      while remaining != 0
        invariant 0 <= remaining <= length && cursor == start + (length - remaining) && |file| == |old(file)|
        invariant forall k :: 0 <= k < |file| ==> file[k] == if start <= k < cursor then 0 else old(file)[k]
      {
        var count := Min(remaining, ZERO_CHUNK);
        ghost var before := file;
        file := WriteAt(file, cursor, Zeros(count));
        assert forall k :: 0 <= k < |file| ==> file[k] == if cursor <= k < cursor + count then 0 else before[k];
        cursor := cursor + count;
        remaining := remaining - count;
      }
    }

    method DeallocateSlot(slot: nat) returns (ok: bool)
      requires Valid()
      modifies this`file
      ensures Valid() && ok == (slot < l.slotCount)
      ensures ok ==>
                Offset(l, slot) + l.pageSize <= |file| && file == WriteAt(old(file), Offset(l, slot), Zeros(l.pageSize))
      ensures !ok ==> file == old(file)
    {
      if slot >= l.slotCount { return false; }
      Windows(l, slot, l.slotCount);
      Zero(Offset(l, slot), l.pageSize);
      ok := true;
    }
  }

  lemma MulMono(a: nat, b: nat, c: nat, d: nat)
    requires a <= c && b <= d
    ensures a * b <= c * d
  {
    assert a * b <= a * d;
    assert a * d <= c * d;
  }

  /** A validated layout never overflows 64-bit offsets. */
  lemma ShardFits(l: Layout)
    requires Validated(l)
    ensures ShardBytes(l) <= U64_MAX
  {
    MulMono(l.slotCount, l.pageSize, U32_MAX, MAX_PAGE);
  }

  // ----- Reading across slots -----

  /** slots_are_contiguous: each slot index is the previous one plus one, in wrapping arithmetic. */
  method SlotsAreContiguous(guards: seq<Guard>) returns (yes: bool)
    ensures yes <==> forall i :: 0 <= i < |guards| - 1 ==> guards[i + 1].slot == AsU32(guards[i].slot + 1)
  {
    if |guards| == 0 { return true; }
    for i := 0 to |guards| - 1
      invariant forall j :: 0 <= j < i ==> guards[j + 1].slot == AsU32(guards[j].slot + 1)
    {
      if guards[i + 1].slot != AsU32(guards[i].slot + 1) { return false; }
    }
    return true;
  }

  /** On slots of a real shard the wrap-around never happens. */
  lemma {:induction false} NoWrap(l: Layout, guards: seq<Guard>, k: nat)
    requires Validated(l) && k < |guards| && forall i :: 0 <= i < |guards| ==> OnSlot(l, guards[i])
    requires forall i :: 0 <= i < |guards| - 1 ==> guards[i + 1].slot == AsU32(guards[i].slot + 1)
    ensures guards[k].slot == guards[0].slot + k
    decreases k
  {
    if k > 0 {
      NoWrap(l, guards, k - 1);
      assert guards[(k - 1) + 1].slot == AsU32(guards[k - 1].slot + 1);
    }
  }

  predicate Consecutive(guards: seq<Guard>) {
    forall i :: 0 <= i < |guards| ==> guards[i].slot == guards[0].slot + i
  }

  lemma ContiguousIsConsecutive(l: Layout, guards: seq<Guard>)
    requires Validated(l) && forall i :: 0 <= i < |guards| ==> OnSlot(l, guards[i])
    ensures (forall i :: 0 <= i < |guards| - 1 ==> guards[i + 1].slot == AsU32(guards[i].slot + 1))
            <==> Consecutive(guards)
  {
    if forall i :: 0 <= i < |guards| - 1 ==> guards[i + 1].slot == AsU32(guards[i].slot + 1) {
      forall k | 0 <= k < |guards|
        ensures guards[k].slot == guards[0].slot + k
      {
        NoWrap(l, guards, k);
      }
    }
  }

  /** When read_contiguous serves a request. */
  predicate Servable(l: Layout, arena: int, guards: seq<Guard>, offset: nat, length: nat) {
    && |guards| > 0 && (forall i :: 0 <= i < |guards| ==> guards[i].arena == arena)
    && Adjacent(l, guards) && offset + length <= WindowEnd(l, guards)
    && (length == 0 || offset < l.pageSize)
  }

  /** The argument checks of read_contiguous. */
  method CheckGuards(l: Layout, arena: int, guards: seq<Guard>) returns (fine: bool)
    requires Validated(l) && forall i :: 0 <= i < |guards| && guards[i].arena == arena ==> OnSlot(l, guards[i])
    ensures fine
            <==> |guards| > 0 && (forall i :: 0 <= i < |guards| ==> guards[i].arena == arena) && Adjacent(l, guards)
  {
    if |guards| == 0 { return false; }
    for i := 0 to |guards|
      invariant forall j :: 0 <= j < i ==> guards[j].arena == arena
    {
      if guards[i].arena != arena { return false; }
    }
    ContiguousIsConsecutive(l, guards);
    var contiguous := SlotsAreContiguous(guards);
    if !contiguous { return false; }
    for i := 0 to |guards| - 1
      invariant forall j :: 0 <= j < i ==> guards[j].length == l.pageSize
    {
      if guards[i].length != l.pageSize { return false; }
    }
    return true;
  }

  lemma SliceOfSlice(file: Bytes, at: nat, w: nat, offset: nat, length: nat)
    requires at + w <= |file| && offset + length <= w
    ensures file[at..at + w][offset..offset + length] == file[at + offset..at + offset + length]
  {
    var x, y := file[at..at + w][offset..offset + length], file[at + offset..at + offset + length];
    assert |x| == |y| && forall k :: 0 <= k < length ==> x[k] == y[k];
  }

  /** A request inside the guarded pages is inside the slot window, and is the same slice of the file. */
  lemma WindowBounds(l: Layout, file: Bytes, guards: seq<Guard>, offset: nat, length: nat)
    requires |file| == ShardBytes(l) && Adjacent(l, guards) && forall i :: 0 <= i < |guards| ==> OnSlot(l, guards[i])
    requires offset + length <= WindowEnd(l, guards)
    ensures guards[0].slot + (|guards| - 1) < l.slotCount && offset + length <= |guards| * l.pageSize
    ensures var at := Offset(l, guards[0].slot);
            && offset + length <= |Pages(l, file, guards)| && at + offset + length <= |file|
            && Pages(l, file, guards)[offset..offset + length] == file[at + offset..at + offset + length]
  {
    Split(|guards|, l.pageSize);
    assert OnSlot(l, guards[|guards| - 1]);
    PagesAreOneSlice(l, file, guards);
    SliceOfSlice(file, Offset(l, guards[0].slot), WindowEnd(l, guards), offset, length);
  }

  /** Serves exactly the servable requests, with the slice of the guarded pages laid end to end. */
  method ReadContiguous(shard: Shard, guards: seq<Guard>, offset: nat, output: array<byte>, pointerAligned: bool)
    returns (ok: bool)
    requires shard.Valid() && forall i :: 0 <= i < |guards| && guards[i].arena == shard.arena ==>
               OnSlot(shard.l, guards[i])
    modifies output
    ensures shard.Valid() && shard.file == old(shard.file)
            && ok == Servable(shard.l, shard.arena, guards, offset, output.Length)
    ensures ok ==> offset + output.Length <= |Pages(shard.l, shard.file, guards)|
                   && output[..] == Pages(shard.l, shard.file, guards)[offset..offset + output.Length]
  {
    var l := shard.l;
    var fine := CheckGuards(l, shard.arena, guards);
    if !fine { return false; }
    if offset + output.Length > WindowEnd(l, guards) { return false; }
    WindowBounds(l, shard.file, guards, offset, output.Length);
    if output.Length == 0 { return true; }
    if offset >= l.pageSize { return false; }
    ok := shard.ReadSlotsContiguous(guards[0].slot, |guards|, offset, output, pointerAligned);
  }

  lemma SamePages(l: Layout, a: seq<Page>, b: seq<Page>)
    requires multiset(a) == multiset(b)
    ensures AllWritable(l, a) <==> AllWritable(l, b)
    ensures (forall i :: 0 <= i < |a| ==> a[i].slot <= U32_MAX) ==> forall i :: 0 <= i < |b| ==> b[i].slot <= U32_MAX
  {
    forall p
      ensures p in a <==> p in b
    {
      assert p in multiset(a) <==> p in multiset(b);
    }
    assert forall i :: 0 <= i < |a| ==> a[i] in a;
    assert forall i :: 0 <= i < |b| ==> b[i] in b;
  }
}
