/**
 The arena file behind the slot protocol: the payload of a cell is its slot's window of the
 file, and each way the code writes the file (one slot, a coalesced batch, a deallocation)
 does to the windows what the protocol's step does to the cells.
 */
module ArenaRefinement {
  import opened Basics
  import opened ArenaIo
  import SlotProtocol
  import CacheBatch

  lemma WindowFits(l: Layout, i: nat)
    requires i < l.slotCount
    ensures Offset(l, i) + l.pageSize <= ShardBytes(l)
  {
    Windows(l, i, l.slotCount);
  }

  function Slice(file: Bytes, at: nat, size: nat): (r: Bytes)
    requires at + size <= |file|
    ensures |r| == size
  {
    file[at..at + size]
  }

  function Window(l: Layout, file: Bytes, i: nat): (r: Bytes)
    requires |file| == ShardBytes(l) && i < l.slotCount
    ensures |r| == l.pageSize
  {
    WindowFits(l, i);
    Slice(file, Offset(l, i), l.pageSize)
  }

  predicate Backs(l: Layout, file: Bytes, cells: seq<SlotProtocol.Cell>) {
    && |file| == ShardBytes(l) && |cells| == l.slotCount
    && forall i :: 0 <= i < |cells| ==> cells[i].payload == Window(l, file, i)
  }

  lemma SliceInside(file: Bytes, at: nat, size: nat, bytes: Bytes)
    requires at + size <= |file| && |bytes| <= size
    ensures Slice(WriteAt(file, at, bytes), at, size) == bytes + Slice(file, at, size)[|bytes|..]
  {
    var x, y := Slice(WriteAt(file, at, bytes), at, size), bytes + Slice(file, at, size)[|bytes|..];
    assert |x| == |y| && forall k :: 0 <= k < size ==> x[k] == y[k];
  }

  lemma SliceOutside(file: Bytes, from: nat, size: nat, at: nat, bytes: Bytes)
    requires from + size <= |file| && at + |bytes| <= |file| && (from + size <= at || at + |bytes| <= from)
    ensures Slice(WriteAt(file, at, bytes), from, size) == Slice(file, from, size)
  {
    var x, y := Slice(WriteAt(file, at, bytes), from, size), Slice(file, from, size);
    assert |x| == |y| && forall k :: 0 <= k < size ==> x[k] == y[k];
  }

  /** A page write replaces the front of its own window and leaves the others alone. */
  lemma WindowOfWrite(l: Layout, file: Bytes, p: Page, i: nat)
    requires |file| == ShardBytes(l) && Writable(l, p) && i < l.slotCount
    ensures Window(l, WritePage(l, file, p), i) == if i == p.slot then p.bytes + Window(l, file, i)[|p.bytes|..]
            else Window(l, file, i)
  {
    WindowFits(l, i);
    WindowFits(l, p.slot);
    if i == p.slot {
      SliceInside(file, Offset(l, i), l.pageSize, p.bytes);
    } else {
      if i < p.slot { Windows(l, i, p.slot); } else { Windows(l, p.slot, i); }
      SliceOutside(file, Offset(l, i), l.pageSize, Offset(l, p.slot), p.bytes);
    }
  }

  /** write_slot on the file is the protocol's payload write. */
  lemma WriteRefines(l: Layout, file: Bytes, cells: seq<SlotProtocol.Cell>, p: Page)
    requires Backs(l, file, cells) && Writable(l, p)
    ensures Backs(l, WritePage(l, file, p), cells[p.slot := SlotProtocol.WritePayload(cells[p.slot], p.bytes)])
  {
    var out := cells[p.slot := SlotProtocol.WritePayload(cells[p.slot], p.bytes)];
    forall i | 0 <= i < |out|
      ensures out[i].payload == Window(l, WritePage(l, file, p), i)
    {
      WindowOfWrite(l, file, p, i);
    }
  }

  function PageOf(p: CacheBatch.Page): Page {
    Page(p.rec.slot, p.bytes)
  }

  function PagesOf(pages: seq<CacheBatch.Page>): (r: seq<Page>)
    ensures |r| == |pages| && forall k :: 0 <= k < |r| ==> r[k] == PageOf(pages[k])
  {
    seq(|pages|, k requires 0 <= k < |pages| => PageOf(pages[k]))
  }

  /** The batch written cell by cell, as the protocol steps do it. */
  function WriteCells(cells: seq<SlotProtocol.Cell>, pages: seq<Page>): (r: seq<SlotProtocol.Cell>)
    requires forall k :: 0 <= k < |pages| ==> pages[k].slot < |cells|
    ensures |r| == |cells|
    decreases |pages|
  {
    if |pages| == 0 then cells
    else WriteCells(cells[pages[0].slot := SlotProtocol.WritePayload(cells[pages[0].slot], pages[0].bytes)], pages[1..])
  }

  lemma {:induction false} WriteAllRefines(l: Layout, file: Bytes, cells: seq<SlotProtocol.Cell>, pages: seq<Page>)
    requires Backs(l, file, cells) && AllWritable(l, pages)
    ensures Backs(l, WriteAll(l, file, pages), WriteCells(cells, pages))
    decreases |pages|
  {
    if |pages| > 0 {
      WriteRefines(l, file, cells, pages[0]);
      WriteAllRefines(l, WritePage(l, file, pages[0]),
                      cells[pages[0].slot := SlotProtocol.WritePayload(cells[pages[0].slot], pages[0].bytes)],
                      pages[1..]);
    }
  }

  /**
   An accepted batch never trips the range checks of the coalesced writer, and what that
   writer leaves in the file is what the protocol's page-by-page writes leave in the cells.
   */
  method WriteBatchBytes(shard: Shard, pages: seq<CacheBatch.Page>, ghost cells: seq<SlotProtocol.Cell>)
    returns (ok: bool)
    requires shard.Valid() && Backs(shard.l, shard.file, cells)
             && CacheBatch.Acceptable(shard.l.pageSize, shard.l.slotCount, pages)
    modifies shard
    ensures shard.Valid() && ok && AllWritable(shard.l, PagesOf(pages))
    ensures Backs(shard.l, shard.file, WriteCells(cells, PagesOf(pages)))
  {
    ghost var file := shard.file;
    var out := PagesOf(pages);
    forall k | 0 <= k < |out|
      ensures Writable(shard.l, out[k])
    {
      assert CacheBatch.PageOk(shard.l.pageSize, shard.l.slotCount, pages[k]);
    }
    ok := shard.WriteContiguousRuns(out);
    WriteAllRefines(shard.l, file, cells, out);
  }

  /** deallocate_slot on the file is the protocol's write of a zero page. */
  lemma ZeroRefines(l: Layout, file: Bytes, cells: seq<SlotProtocol.Cell>, slot: nat)
    requires Validated(l) && Backs(l, file, cells) && slot < l.slotCount
    ensures Offset(l, slot) + l.pageSize <= |file|
    ensures Backs(l, WriteAt(file, Offset(l, slot), Zeros(l.pageSize)),
                  cells[slot := SlotProtocol.WritePayload(cells[slot], Zeros(l.pageSize))])
  {
    WindowFits(l, slot);
    WriteRefines(l, file, cells, Page(slot, Zeros(l.pageSize)));
  }

  /** What a plain or unbuffered slot read returns is a slice of the cell's payload. */
  method ReadCell(shard: Shard, ghost cells: seq<SlotProtocol.Cell>, slot: nat, length: nat, offset: nat,
                  output: array<byte>, pointerAligned: bool)
    returns (ok: bool)
    requires shard.Valid() && Backs(shard.l, shard.file, cells)
    modifies output
    ensures ok == (offset + output.Length <= length <= shard.l.pageSize && slot < shard.l.slotCount)
    ensures ok ==>
              offset + output.Length <= |cells[slot].payload|
                  && output[..] == cells[slot].payload[offset..offset + output.Length]
  {
    ok := shard.ReadSlot(slot, length, offset, output, pointerAligned);
    if ok {
      WindowFits(shard.l, slot);
      SliceOfSlice(shard.file, Offset(shard.l, slot), shard.l.pageSize, offset, output.Length);
    }
  }
}
